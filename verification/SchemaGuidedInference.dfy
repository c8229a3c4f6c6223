/**
 * Schema inference with a provided schema: when it succeeds, order included, and that it
 * returns the schema restricted to what was observed.
 */
module SchemaGuidedInference {
  import opened Values
  import opened ArrowTypes
  import opened FieldTrees
  import opened TypeInference
  import opened SchemaInference

  /** `assertStructValue` does not throw. */
  predicate StructValue(v: Value) {
    IsNullish(v) || v.Record? || v.Instance? || v.Url? || v.ArrayBuffer? || v.BlobHandle? || v.Builtin?
  }

  // ---------------------------------------------------------------- the code's fold

  /** `addSchemaField`. */
  function AddSchemaField(schema: seq<Field>, n: Node, o: Obs): Result<Node>
    requires n.Branch? && o.path != []
  {
    match FieldAtPath(schema, o.path)
    case None => Err
    case Some(field) =>
      if field.typ.Struct? && !StructValue(o.value) then Err
      else
        var leaf := if IsDeferred(o.value) then Deferred([o.value]) else Typed(field.typ);
        match Set(n, o.path, leaf, true)
        case None => Err
        case Some(m) => Ok(m)
  }

  /** `observe` with a schema. */
  function Observe(schema: seq<Field>, n: Node, o: Obs): Result<Node>
    requires n.Branch? && o.path != []
  {
    if !Supported(o.value) then Err
    else match Read(n, o.path)
      case Absent => AddSchemaField(schema, n, o)
      case Evidence(Deferred(_)) => if IsNullish(o.value) then Ok(n) else AddSchemaField(schema, n, o)
      case Inner => if StructValue(o.value) then Ok(n) else Err
      case Evidence(Typed(t)) => if !t.Struct? || StructValue(o.value) then Ok(n) else Err
  }

  function ObserveAll(schema: seq<Field>, os: seq<Obs>): (r: Result<Node>)
    requires Proper(os)
    ensures r.Ok? ==> r.value.Branch? && WellFormed(r.value)
    decreases |os|
  {
    if os == [] then Ok(EMPTY)
    else
      assert forall o | o in os[..|os| - 1] :: o in os;
      match ObserveAll(schema, os[..|os| - 1])
      case Err => Err
      case Ok(n) =>
        ObserveKeepsWellFormed(schema, n, os[|os| - 1]);
        Observe(schema, n, os[|os| - 1])
  }

  /** An observation that changes the tree sets one leaf. */
  lemma ObserveSets(schema: seq<Field>, n: Node, o: Obs) returns (leaf: Leaf)
    requires n.Branch? && o.path != [] && Observe(schema, n, o).Ok? && Observe(schema, n, o).value != n
    ensures Set(n, o.path, leaf, true) == Some(Observe(schema, n, o).value)
  {
    leaf := if IsDeferred(o.value) then Deferred([o.value]) else Typed(FieldAtPath(schema, o.path).value.typ);
  }

  lemma ObserveKeepsWellFormed(schema: seq<Field>, n: Node, o: Obs)
    requires n.Branch? && WellFormed(n) && o.path != []
    ensures Observe(schema, n, o).Ok? ==> Observe(schema, n, o).value.Branch? && WellFormed(Observe(schema, n, o).value)
  {
    if Observe(schema, n, o).Ok? && Observe(schema, n, o).value != n {
      var leaf := ObserveSets(schema, n, o);
      SetWellFormed(n, o.path, leaf, true);
    }
  }

  /** Whatever is observed, every branch of the tree has evidence under it. */
  lemma {:induction false} NoBranchIsEmpty(schema: seq<Field>, os: seq<Obs>)
    requires Proper(os) && ObserveAll(schema, os).Ok?
    ensures NoEmptyBranch(ObserveAll(schema, os).value)
    decreases |os|
  {
    if os != [] {
      var front, o := os[..|os| - 1], os[|os| - 1];
      assert forall e | e in front :: e in os;
      NoBranchIsEmpty(schema, front);
      var n := ObserveAll(schema, front).value;
      if Observe(schema, n, o).value != n {
        var leaf := ObserveSets(schema, n, o);
        SetLeavesNoEmptyBranch(n, o.path, leaf, true);
      }
    }
  }

  /** What the unchecked cast in `matchingFields` relies on: a branch only where the field is a struct. */
  ghost predicate BranchesAreStructs(fields: seq<Field>, n: Node)
    requires n.Branch?
    decreases n
  {
    forall f | f in fields && f.name in n.children && n.children[f.name].Branch? ::
      f.typ.Struct? && BranchesAreStructs(f.typ.children, n.children[f.name])
  }

  /** `matchingFields`. */
  function MatchingFields(fields: seq<Field>, n: Node): seq<Field>
    requires n.Branch? && BranchesAreStructs(fields, n)
    decreases n, |fields|
  {
    if fields == [] then []
    else
      var f := fields[0];
      var rest := MatchingFields(fields[1..], n);
      if f.name !in n.children then rest
      else
        var child := n.children[f.name];
        if child.Branch? then [f.(typ := Struct(MatchingFields(f.typ.children, child)))] + rest
        else [f] + rest
  }

  // ---------------------------------------------------------------- the specification

  /** What is asked of one observation alone. */
  predicate Accepted(schema: seq<Field>, o: Obs)
    requires o.path != []
  {
    && Supported(o.value)
    && FieldAtPath(schema, o.path).Some?
    && (FieldAtPath(schema, o.path).value.typ.Struct? ==> StructValue(o.value))
  }

  /** At a struct nothing is accepted but null, dates and the like, and plain objects of supported values. */
  lemma StructTakesExactly(schema: seq<Field>, o: Obs)
    requires o.path != [] && FieldAtPath(schema, o.path).Some? && FieldAtPath(schema, o.path).value.typ.Struct?
    ensures Accepted(schema, o) <==>
            || o.value.Null? || o.value.Undefined? || o.value.Builtin?
            || (o.value.Record? && o.value.fields != map[] &&
                forall k | k in o.value.fields :: Supported(o.value.fields[k]))
  {
  }

  /** A value that is not null at a path with longer paths comes after one of those. */
  ghost predicate RecordsComeFirst(os: seq<Obs>) {
    forall i | 0 <= i < |os| && !IsNullish(os[i].value) && SeenBelow(os, os[i].path) ::
      SeenBelow(os[..i], os[i].path)
  }

  ghost predicate Succeeds(schema: seq<Field>, os: seq<Obs>)
    requires Proper(os)
  {
    (forall o | o in os :: Accepted(schema, o)) && RecordsComeFirst(os)
  }

  /** The schema restricted to what was observed at and below `prefix`. */
  ghost function Restrict(fields: seq<Field>, prefix: Path, os: seq<Obs>): seq<Field>
    decreases fields
  {
    if fields == [] then []
    else
      var f := fields[0];
      var p := prefix + [f.name];
      var kept := if SeenBelow(os, p) && f.typ.Struct? then [f.(typ := Struct(Restrict(f.typ.children, p, os)))]
                  else if SeenBelow(os, p) || SeenAt(os, p) then [f]
                  else [];
      kept + Restrict(fields[1..], prefix, os)
  }

  // ---------------------------------------------------------------- the invariant

  ghost predicate OnlyNullsAt(os: seq<Obs>, p: Path) {
    forall o | o in os && o.path == p :: IsNullish(o.value)
  }

  ghost predicate ReadingStandsFor(schema: seq<Field>, os: seq<Obs>, p: Path, r: Reading) {
    if p == [] || SeenBelow(os, p) then r.Inner?
    else if SeenAt(os, p) then
      && r.Evidence?
      && (OnlyNulls(r.leaf) <==> OnlyNullsAt(os, p))
      && (r.leaf.Typed? ==> FieldAtPath(schema, p).Some? && r.leaf.typ == FieldAtPath(schema, p).value.typ)
    else r.Absent?
  }

  ghost predicate StandsFor(schema: seq<Field>, os: seq<Obs>, n: Node) {
    n.Branch? && WellFormed(n) && forall p :: ReadingStandsFor(schema, os, p, Read(n, p))
  }

  lemma OnlyNullsSnoc(os: seq<Obs>, o: Obs, p: Path)
    ensures OnlyNullsAt(os + [o], p) <==> OnlyNullsAt(os, p) && (o.path == p ==> IsNullish(o.value))
  {
    assert forall x :: x in os + [o] <==> x in os || x == o;
  }

  /** An observation that changes nothing keeps the tree standing for all observations. */
  lemma KeepStandsFor(schema: seq<Field>, os: seq<Obs>, n: Node, o: Obs)
    requires o.path != [] && StandsFor(schema, os, n)
    requires SeenBelow(os, o.path) || (SeenAt(os, o.path) && (OnlyNullsAt(os, o.path) ==> IsNullish(o.value)))
    ensures StandsFor(schema, os + [o], n)
  {
    forall q ensures ReadingStandsFor(schema, os + [o], q, Read(n, q)) {
      SnocSeen(os, o, q);
      OnlyNullsSnoc(os, o, q);
      assert ReadingStandsFor(schema, os, q, Read(n, q));
    }
  }

  lemma SetStandsFor(schema: seq<Field>, os: seq<Obs>, n: Node, o: Obs, leaf: Leaf)
    requires o.path != [] && StandsFor(schema, os, n)
    requires !SeenBelow(os, o.path)
    requires OnlyNulls(leaf) <==> OnlyNullsAt(os + [o], o.path)
    requires leaf.Typed? ==> FieldAtPath(schema, o.path).Some? && leaf.typ == FieldAtPath(schema, o.path).value.typ
    requires Set(n, o.path, leaf, true).Some?
    ensures StandsFor(schema, os + [o], Set(n, o.path, leaf, true).value)
  {
    var m := Set(n, o.path, leaf, true).value;
    SetReads(n, o.path, leaf, true);
    SetWellFormed(n, o.path, leaf, true);
    forall q ensures ReadingStandsFor(schema, os + [o], q, Read(m, q)) {
      assert Read(m, q) == ReadAfter(n, o.path, leaf, q);
      SnocSeen(os, o, q);
      OnlyNullsSnoc(os, o, q);
      assert ReadingStandsFor(schema, os, q, Read(n, q));
      if o.path < q { assert !SeenBelow(os, q) && !SeenAt(os, q); }
    }
  }

  /** Nothing above `p` holds a value, with no record seen there yet. */
  ghost predicate ClearAbove(os: seq<Obs>, p: Path) {
    forall a | a in os && a.path < p && !IsNullish(a.value) :: SeenBelow(os, a.path)
  }

  lemma RecordsComeFirstSnoc(os: seq<Obs>, o: Obs)
    requires RecordsComeFirst(os)
    ensures RecordsComeFirst(os + [o]) <==> ClearAbove(os, o.path)
  {
    var os' := os + [o];
    if ClearAbove(os, o.path) {
      forall i | 0 <= i < |os'| && !IsNullish(os'[i].value) && SeenBelow(os', os'[i].path)
        ensures SeenBelow(os'[..i], os'[i].path)
      {
        SnocSeen(os, o, os'[i].path);
        if i < |os| {
          assert os'[i] == os[i] && os'[..i] == os[..i];
        } else {
          assert os'[..i] == os;
        }
      }
    }
    if RecordsComeFirst(os') {
      forall a | a in os && a.path < o.path && !IsNullish(a.value) ensures SeenBelow(os, a.path) {
        var i :| 0 <= i < |os| && os[i] == a;
        assert os'[i] == a && os'[..i] == os[..i];
        SnocSeen(os, o, a.path);
        assert SeenBelow(os[..i], a.path);
        var b :| b in os[..i] && a.path < b.path;
        assert b in os;
      }
    }
  }

  lemma ConflictsMeansBlockedAbove(schema: seq<Field>, os: seq<Obs>, n: Node, p: Path)
    requires p != [] && Proper(os) && StandsFor(schema, os, n)
    requires !SeenBelow(os, p)
    ensures Conflicts(n, p, true) <==> !ClearAbove(os, p)
  {
    assert ReadingStandsFor(schema, os, p, Read(n, p));
    if !ClearAbove(os, p) {
      var a :| a in os && a.path < p && !IsNullish(a.value) && !SeenBelow(os, a.path);
      var k := |a.path|;
      assert a.path == p[..k];
      assert ReadingStandsFor(schema, os, p[..k], Read(n, p[..k]));
      assert SeenAt(os, a.path) && !OnlyNullsAt(os, a.path);
      assert Blocks(Read(n, p[..k]), true);
    }
    if Conflicts(n, p, true) {
      var k :| 0 < k < |p| && Blocks(Read(n, p[..k]), true);
      assert ReadingStandsFor(schema, os, p[..k], Read(n, p[..k]));
      assert !OnlyNullsAt(os, p[..k]);
      var a :| a in os && a.path == p[..k] && !IsNullish(a.value);
      assert a.path < p && !SeenBelow(os, a.path);
    }
  }

  /** The field of a path with observed paths below it is a struct. */
  lemma SeenBelowIsStruct(schema: seq<Field>, os: seq<Obs>, p: Path)
    requires Proper(os) && p != []
    requires forall o | o in os :: Accepted(schema, o)
    requires SeenBelow(os, p)
    ensures FieldAtPath(schema, p).Some? && FieldAtPath(schema, p).value.typ.Struct?
  {
    var b :| b in os && p < b.path;
    FieldAbove(schema, b.path, |p|);
    assert p == b.path[..|p|];
  }

  /** `addSchemaField` when nothing has been seen below the path. */
  lemma AddSchemaFieldStep(schema: seq<Field>, os: seq<Obs>, n: Node, o: Obs)
    requires Proper(os) && o.path != [] && StandsFor(schema, os, n) && Supported(o.value)
    requires !SeenBelow(os, o.path)
    requires !IsNullish(o.value) || !SeenAt(os, o.path)
    ensures AddSchemaField(schema, n, o).Ok? <==> Accepted(schema, o) && ClearAbove(os, o.path)
    ensures AddSchemaField(schema, n, o).Ok? ==> StandsFor(schema, os + [o], AddSchemaField(schema, n, o).value)
  {
    ConflictsMeansBlockedAbove(schema, os, n, o.path);
    if Accepted(schema, o) {
      var leaf := if IsDeferred(o.value) then Deferred([o.value]) else Typed(FieldAtPath(schema, o.path).value.typ);
      SetReads(n, o.path, leaf, true);
      OnlyNullsSnoc(os, o, o.path);
      assert OnlyNulls(leaf) <==> IsNullish(o.value) by {
        assert OnlyNulls(Deferred([o.value])) <==> IsNullish([o.value][0]);
      }
      if ClearAbove(os, o.path) { SetStandsFor(schema, os, n, o, leaf); }
    }
  }

  lemma ObserveStep(schema: seq<Field>, os: seq<Obs>, n: Node, o: Obs)
    requires Proper(os) && o.path != [] && StandsFor(schema, os, n)
    requires Succeeds(schema, os)
    ensures Observe(schema, n, o).Ok? <==> Accepted(schema, o) && ClearAbove(os, o.path)
    ensures Observe(schema, n, o).Ok? ==> StandsFor(schema, os + [o], Observe(schema, n, o).value)
  {
    var p := o.path;
    assert ReadingStandsFor(schema, os, p, Read(n, p));
    if !Supported(o.value) {
    } else if SeenBelow(os, p) || SeenAt(os, p) {
      assert ClearAbove(os, p) by {
        var x :| x in os && p <= x.path;
        forall a | a in os && a.path < p && !IsNullish(a.value) ensures SeenBelow(os, a.path) {
          assert a.path < x.path;
        }
      }
      if SeenBelow(os, p) {
        SeenBelowIsStruct(schema, os, p);
        KeepStandsFor(schema, os, n, o);
      } else {
        var x :| x in os && x.path == p;
        assert Accepted(schema, x);
        if Read(n, p).leaf.Deferred? && !IsNullish(o.value) {
          AddSchemaFieldStep(schema, os, n, o);
        } else {
          KeepStandsFor(schema, os, n, o);
        }
      }
    } else {
      AddSchemaFieldStep(schema, os, n, o);
    }
  }

  lemma {:induction false} ObserveAllRefines(schema: seq<Field>, os: seq<Obs>)
    requires Proper(os)
    ensures ObserveAll(schema, os).Ok? <==> Succeeds(schema, os)
    ensures ObserveAll(schema, os).Ok? ==> StandsFor(schema, os, ObserveAll(schema, os).value)
    decreases |os|
  {
    if os == [] {
      forall p ensures ReadingStandsFor(schema, os, p, Read(EMPTY, p)) {}
    } else {
      var before, o := os[..|os| - 1], os[|os| - 1];
      assert os == before + [o];
      assert forall x :: x in os <==> x in before || x == o;
      ObserveAllRefines(schema, before);
      if RecordsComeFirst(os) { PrefixComesFirst(before, o); }
      if Succeeds(schema, before) {
        ObserveStep(schema, before, ObserveAll(schema, before).value, o);
        RecordsComeFirstSnoc(before, o);
      }
    }
  }

  lemma PrefixComesFirst(os: seq<Obs>, o: Obs)
    requires RecordsComeFirst(os + [o])
    ensures RecordsComeFirst(os)
  {
    var os' := os + [o];
    forall i | 0 <= i < |os| && !IsNullish(os[i].value) && SeenBelow(os, os[i].path)
      ensures SeenBelow(os[..i], os[i].path)
    {
      SnocSeen(os, o, os[i].path);
      assert os'[i] == os[i] && os'[..i] == os[..i];
    }
  }

  // ---------------------------------------------------------------- the result

  /** `sub` is the part of a tree under `prefix`. */
  ghost predicate Under(n: Node, prefix: Path, sub: Node) {
    forall q :: Read(sub, q) == Read(n, prefix + q)
  }

  lemma UnderChild(n: Node, prefix: Path, sub: Node, name: string)
    requires Under(n, prefix, sub) && sub.Branch? && name in sub.children
    ensures Under(n, prefix + [name], sub.children[name])
  {
    forall q ensures Read(sub.children[name], q) == Read(n, prefix + [name] + q) {
      ReadChild(sub, name, q);
      assert prefix + ([name] + q) == prefix + [name] + q;
    }
  }

  /** Where the schema's own fields lead from a prefix. */
  ghost predicate FieldsAt(schema: seq<Field>, prefix: Path, fields: seq<Field>) {
    if prefix == [] then fields == schema
    else
      var f := FieldAtPath(schema, prefix);
      f.Some? && f.value.typ.Struct? && f.value.typ.children == fields
  }

  /** A field of the list at a prefix is what the schema has at its path. */
  lemma FieldsAtFind(schema: seq<Field>, prefix: Path, fields: seq<Field>, i: nat)
    requires FieldsAt(schema, prefix, fields) && i < |fields| && DistinctNames(fields)
    ensures FieldAtPath(schema, prefix + [fields[i].name]) == Some(fields[i])
  {
    FindUnique(fields, i);
    if prefix == [] {
      assert prefix + [fields[i].name] == [fields[i].name];
    } else {
      FieldBelow(schema, prefix, fields[i].name);
    }
  }

  /** A branch exists only where the schema has a struct. */
  lemma {:induction false} BranchesHoldStructs(
    schema: seq<Field>, os: seq<Obs>, n: Node, prefix: Path, fields: seq<Field>, sub: Node)
    requires Proper(os) && StandsFor(schema, os, n) && forall o | o in os :: Accepted(schema, o)
    requires FieldsAt(schema, prefix, fields) && DistinctNames(fields)
    requires sub.Branch? && Under(n, prefix, sub)
    ensures BranchesAreStructs(fields, sub)
    decreases sub
  {
    forall f | f in fields && f.name in sub.children && sub.children[f.name].Branch?
      ensures f.typ.Struct? && BranchesAreStructs(f.typ.children, sub.children[f.name])
    {
      var i :| 0 <= i < |fields| && fields[i] == f;
      var p := prefix + [f.name];
      FieldsAtFind(schema, prefix, fields, i);
      UnderChild(n, prefix, sub, f.name);
      assert Read(sub.children[f.name], []) == Read(n, p + []);
      assert p + [] == p;
      assert ReadingStandsFor(schema, os, p, Read(n, p));
      SeenBelowIsStruct(schema, os, p);
      BranchesHoldStructs(schema, os, n, p, f.typ.children, sub.children[f.name]);
    }
  }

  /** `matchingFields` computes the restriction, in schema order. */
  lemma {:induction false} MatchingIsRestriction(
    schema: seq<Field>, os: seq<Obs>, n: Node, prefix: Path, all: seq<Field>, k: nat, sub: Node)
    requires Proper(os) && StandsFor(schema, os, n) && forall o | o in os :: Accepted(schema, o)
    requires FieldsAt(schema, prefix, all) && DistinctNames(all) && k <= |all|
    requires sub.Branch? && Under(n, prefix, sub)
    requires BranchesAreStructs(all[k..], sub)
    ensures MatchingFields(all[k..], sub) == Restrict(all[k..], prefix, os)
    decreases sub, |all| - k
  {
    if k < |all| {
      var f := all[k];
      var p := prefix + [f.name];
      assert all[k..][0] == f && all[k..][1..] == all[k + 1..];
      MatchingIsRestriction(schema, os, n, prefix, all, k + 1, sub);
      FieldsAtFind(schema, prefix, all, k);
      assert ReadingStandsFor(schema, os, p, Read(n, p));
      assert Read(sub, [f.name]) == Read(n, p);
      if f.name in sub.children {
        var child := sub.children[f.name];
        UnderChild(n, prefix, sub, f.name);
        assert Read(child, []) == Read(sub, [f.name]) by {
          ReadChild(sub, f.name, []);
          assert [f.name] + [] == [f.name];
        }
        if child.Branch? {
          SeenBelowIsStruct(schema, os, p);
          MatchingIsRestriction(schema, os, n, p, f.typ.children, 0, child);
          assert f.typ.children[0..] == f.typ.children;
        }
      }
    }
  }

  /** `infer` with a schema whose sibling names are distinct. */
  function Infer(schema: seq<Field>, os: seq<Obs>): Result<seq<Field>>
    requires Proper(os) && DistinctNames(schema)
  {
    match ObserveAll(schema, os)
    case Err => Err
    case Ok(n) =>
      CastsAreValid(schema, os);
      Ok(MatchingFields(schema, n))
  }

  /** The cast in `matchingFields` is always valid. */
  lemma CastsAreValid(schema: seq<Field>, os: seq<Obs>)
    requires Proper(os) && DistinctNames(schema)
    ensures ObserveAll(schema, os).Ok? ==> BranchesAreStructs(schema, ObserveAll(schema, os).value)
  {
    ObserveAllRefines(schema, os);
    if ObserveAll(schema, os).Ok? {
      var n := ObserveAll(schema, os).value;
      assert Under(n, [], n) by { forall q ensures Read(n, q) == Read(n, [] + q) { assert [] + q == q; } }
      BranchesHoldStructs(schema, os, n, [], schema, n);
    }
  }

  /** Why sibling names have to be distinct: of two fields with one name the cast reaches both. */
  lemma RepeatedNamesBreakTheCast()
    ensures
      var schema := [Field("s", Struct([Field("x", FLOAT64, true, map[])]), true, map[]),
        Field("s", FLOAT64, true, map[])];
      var os := [Obs(["s", "x"], Number(SafeInteger(1)), 0)];
      Proper(os) && ObserveAll(schema, os).Ok? && !BranchesAreStructs(schema, ObserveAll(schema, os).value)
  {
    var inner := [Field("x", FLOAT64, true, map[])];
    var schema := [Field("s", Struct(inner), true, map[]), Field("s", FLOAT64, true, map[])];
    var o := Obs(["s", "x"], Number(SafeInteger(1)), 0);
    assert FieldAtPath(schema, o.path) == FieldAtPath(inner, ["x"]) == Some(inner[0]) by {
      assert o.path[1..] == ["x"] && Find(schema, "s") == Some(schema[0]) && Find(inner, "x") == Some(inner[0]);
    }
    assert Accepted(schema, o);
    assert RecordsComeFirst([o]) by { assert !SeenBelow([o], o.path); }
    ObserveAllRefines(schema, [o]);
    var n := ObserveAll(schema, [o]).value;
    assert SeenBelow([o], ["s"]) by { assert ["s"] < o.path; }
    assert Read(n, ["s"]).Inner?;
    assert n.children["s"].Branch? && schema[1] in schema;
  }

  /**
   * Inference with a schema succeeds exactly when every observation is accepted and, where a
   * struct holds both records and other objects, a record comes first; it returns the schema
   * restricted to the observed paths.
   */
  lemma InferMeetsSpecification(schema: seq<Field>, os: seq<Obs>)
    requires Proper(os) && DistinctNames(schema)
    ensures Infer(schema, os).Ok? <==> Succeeds(schema, os)
    ensures Infer(schema, os).Ok? ==> Infer(schema, os).value == Restrict(schema, [], os)
  {
    ObserveAllRefines(schema, os);
    if ObserveAll(schema, os).Ok? {
      var n := ObserveAll(schema, os).value;
      CastsAreValid(schema, os);
      assert Under(n, [], n) by { forall q ensures Read(n, q) == Read(n, [] + q) { assert [] + q == q; } }
      assert schema[0..] == schema;
      MatchingIsRestriction(schema, os, n, [], schema, 0, n);
    }
  }
}
