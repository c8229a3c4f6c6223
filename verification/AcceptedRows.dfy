/**
 * What inference makes of whole rows: which values of a row it looks at, that no unsupported object
 * gets past it, and that null filling accepts the rows it accepts.
 */
module AcceptedRows {
  import opened Values
  import opened ArrowTypes
  import opened TypeInference
  import opened TypeMeaning
  import opened Columns
  import opened NullFilling
  import opened SchemaInference
  import Guided = SchemaGuidedInference
  import opened SchemaInferrer

  // ---------------------------------------------------------------- the values inference looks at

  /** The value at a path of plain objects. */
  function ValueUnder(v: Value, path: Path): Option<Value>
    decreases |path|
  {
    if path == [] then Some(v)
    else if v.Record? && path[0] in v.fields then ValueUnder(v.fields[path[0]], path[1..])
    else None
  }

  /** The leaves of a row are the values in it that are neither undefined nor objects with properties. */
  lemma {:induction false} LeavesExactly(row: Row, path: Path, x: Value)
    ensures IsLeaf(row, path, x) <==>
            && path != [] && ValueUnder(Record(row), path) == Some(x)
            && !x.Undefined? && (x.Record? ==> x.fields == map[])
    decreases |path|
  {
    if path != [] && path[0] in row {
      var y := row[path[0]];
      if IsRecord(y) {
        assert y == Record(y.fields);
        LeavesExactly(y.fields, path[1..], x);
      }
    }
  }

  // ---------------------------------------------------------------- unsupported objects

  /** A value is somewhere in another one, through lists and plain objects. */
  ghost predicate Inside(w: Value, v: Value)
    decreases v
  {
    || w == v
    || (v.Array? && exists i | 0 <= i < |v.items| :: Inside(w, v.items[i]))
    || (v.Record? && exists k | k in v.fields :: Inside(w, v.fields[k]))
  }

  /** An object that no column is made of: of a class, or without properties. */
  predicate IsStray(w: Value) {
    w.Instance? || w.Url? || w.ArrayBuffer? || w.BlobHandle? || w == Record(map[])
  }

  lemma {:induction false} StrayIsRefused(w: Value, v: Value)
    requires Inside(w, v) && IsStray(w)
    ensures !Supported(v)
    decreases v
  {
    if w != v {
      if v.Array? {
        var i :| 0 <= i < |v.items| && Inside(w, v.items[i]);
        StrayIsRefused(w, v.items[i]);
      } else {
        var k :| k in v.fields && Inside(w, v.fields[k]);
        StrayIsRefused(w, v.fields[k]);
      }
    }
  }

  lemma {:induction false} RefusedForAStray(v: Value) returns (w: Value)
    requires !Supported(v)
    ensures Inside(w, v) && IsStray(w)
    decreases v
  {
    if IsStray(v) {
      w := v;
    } else if v.Array? {
      var i :| 0 <= i < |v.items| && !Supported(v.items[i]);
      w := RefusedForAStray(v.items[i]);
    } else {
      var k :| k in v.fields && !Supported(v.fields[k]);
      w := RefusedForAStray(v.fields[k]);
    }
  }

  /** A value is supported exactly when there is no such object in it. */
  lemma SupportedExactly(v: Value)
    ensures Supported(v) <==> forall w | Inside(w, v) :: !IsStray(w)
  {
    if Supported(v) {
      forall w | Inside(w, v) ensures !IsStray(w) { if IsStray(w) { StrayIsRefused(w, v); } }
    } else {
      var w := RefusedForAStray(v);
    }
  }

  lemma {:induction false} LeafWithStray(row: Row, name: string, w: Value) returns (path: Path, x: Value)
    requires name in row && Inside(w, row[name]) && IsStray(w)
    ensures IsLeaf(row, path, x) && Inside(w, x)
    decreases row[name]
  {
    if IsRecord(row[name]) {
      var k :| k in row[name].fields && Inside(w, row[name].fields[k]);
      var below;
      below, x := LeafWithStray(row[name].fields, k, w);
      path := [name] + below;
      assert path[1..] == below;
    } else {
      path, x := [name], row[name];
    }
  }

  /** No such object disappears: a row with one in it, at any depth, is refused with and without a schema. */
  lemma StraysAreRefused(
    opts: Options, schema: Option<seq<Field>>, rows: seq<Row>, os: seq<Obs>, row: Row, name: string, w: Value)
    requires Proper(os) && Enumerates(rows, os) && (schema.Some? ==> DistinctNames(schema.value))
    requires row in rows && name in row && Inside(w, row[name]) && IsStray(w)
    ensures Outcome(opts, schema, os).Err?
  {
    var path, x := LeafWithStray(row, name, w);
    StrayIsRefused(w, x);
    assert Observed(os, path, x);
    var o :| o in os && o.path == path && o.value == x;
    if schema.None? {
      SchemaInference.InferMeetsSpecification(opts, os);
      assert !Admissible(opts, o);
    } else {
      Guided.InferMeetsSpecification(schema.value, os);
      assert !Guided.Accepted(schema.value, o);
    }
  }

  // ---------------------------------------------------------------- which rows have a schema

  ghost predicate LeafAt(rows: seq<Row>, p: Path, x: Value) {
    exists row :: row in rows && IsLeaf(row, p, x)
  }

  ghost predicate LeafBelow(rows: seq<Row>, p: Path) {
    exists q, x :: p < q && LeafAt(rows, q, x)
  }

  /** One type holds all the leaves at a path, and some leaf leaves no other choice. */
  ghost predicate HasColumn(opts: Options, rows: seq<Row>, p: Path, t: DataType) {
    p != [] && (forall x | LeafAt(rows, p, x) :: Holds(opts, x, p, Canonical(t))) && ExamplesIn(opts, rows, p, t)
  }

  /** A leaf is supported, and null beside records or one of a column. */
  ghost predicate LeafFits(opts: Options, rows: seq<Row>, p: Path, x: Value) {
    Supported(x) && if LeafBelow(rows, p) then IsNullish(x) else exists t :: HasColumn(opts, rows, p, t)
  }

  /** Rows that a schema can be inferred from, said without inferring anything. */
  ghost predicate HaveSchema(opts: Options, rows: seq<Row>) {
    forall p, x {:trigger LeafAt(rows, p, x)} | LeafAt(rows, p, x) :: LeafFits(opts, rows, p, x)
  }

  lemma ObservedExactly(rows: seq<Row>, os: seq<Obs>, p: Path)
    requires Proper(os) && Enumerates(rows, os)
    ensures forall x :: Observed(os, p, x) <==> LeafAt(rows, p, x)
    ensures SeenBelow(os, p) <==> LeafBelow(rows, p)
  {
    forall o | o in os ensures LeafAt(rows, o.path, o.value) { assert FromRows(rows, o); }
    forall q, x | LeafAt(rows, q, x) ensures Observed(os, q, x) {
      var row :| row in rows && IsLeaf(row, q, x);
      assert Observed(os, q, x);
    }
  }

  /** A value that only one type holds has a type. */
  lemma OnlyHeldIsTyped(opts: Options, x: Value, p: Path, id: nat, t: DataType)
    requires OnlyHeldBy(opts, x, p, Canonical(t))
    ensures InferType(opts, x, p, id).Some?
  {
    assert Holds(opts, x, p, Canonical(t));
    AgreesExactly(opts, x, p, id, t);
    if InferType(opts, x, p, id).None? && !IsTypedByName(opts, x, p) {
      MatchingIsDeferred(x, t);
      var n := Depth(x);
      DeferredMatchesNested(x, n);
      DeferredMatchesNested(x, n + 1);
      DeferredHolds(opts, x, p, Nested(n));
      DeferredHolds(opts, x, p, Nested(n + 1));
      NestedDiffer(n);
    }
  }

  lemma {:induction false} NestedDiffer(n: nat)
    ensures Canonical(Nested(n)) != Canonical(Nested(n + 1))
    decreases n
  {
    if n > 0 { NestedDiffer(n - 1); }
  }

  /**
   * A schema is inferred from rows if and only if no unsupported object is in them, beside records there
   * is only null, and the leaves at every other path are held by one type that some leaf calls for.
   */
  lemma InfersExactly(opts: Options, rows: seq<Row>, os: seq<Obs>)
    requires Proper(os) && Enumerates(rows, os)
    ensures Outcome(opts, None, os).Ok? <==> HaveSchema(opts, rows)
  {
    InferMeetsSpecification(opts, os);
    if Outcome(opts, None, os).Ok? {
      forall p, x | LeafAt(rows, p, x) ensures LeafFits(opts, rows, p, x) { InferredFits(opts, rows, os, p, x); }
    }
    if HaveSchema(opts, rows) {
      forall o | o in os ensures Admissible(opts, o) { FitIsAdmissible(opts, rows, os, o); }
      forall a, b | a in os && b in os ensures Compatible(opts, a, b) { FitsAreCompatible(opts, rows, os, a, b); }
      forall o | o in os && !SeenBelow(os, o.path) ensures TypeSeenAt(opts, os, o.path) {
        FitIsResolved(opts, rows, os, o);
      }
    }
  }

  lemma InferredFits(opts: Options, rows: seq<Row>, os: seq<Obs>, p: Path, x: Value)
    requires Proper(os) && Enumerates(rows, os) && Outcome(opts, None, os).Ok? && LeafAt(rows, p, x)
    ensures LeafFits(opts, rows, p, x)
  {
    ObservedExactly(rows, os, p);
    InferMeetsSpecification(opts, os);
    var o :| o in os && o.path == p && o.value == x;
    assert Admissible(opts, o);
    var f := FieldAtPath(Outcome(opts, None, os).value, p);
    forall y | LeafAt(rows, p, y) && !LeafBelow(rows, p)
      ensures Holds(opts, y, p, Canonical(f.value.typ)) && ExamplesIn(opts, rows, p, f.value.typ)
    {
      var row :| row in rows && IsLeaf(row, p, y);
      EveryLeafHolds(opts, rows, os, row, p, y);
    }
    if !LeafBelow(rows, p) { assert HasColumn(opts, rows, p, f.value.typ); }
  }

  /** The column of an observation, as agreement. */
  lemma ColumnOf(opts: Options, rows: seq<Row>, os: seq<Obs>, o: Obs) returns (t: DataType)
    requires Proper(os) && Enumerates(rows, os) && HaveSchema(opts, rows) && o in os && !SeenBelow(os, o.path)
    ensures HasColumn(opts, rows, o.path, t)
    ensures forall e | e in os && e.path == o.path :: SchemaInference.Fits(opts, e, t)
  {
    ObservedExactly(rows, os, o.path);
    assert LeafAt(rows, o.path, o.value);
    t :| HasColumn(opts, rows, o.path, t);
    forall e | e in os && e.path == o.path ensures SchemaInference.Fits(opts, e, t) {
      assert Observed(os, o.path, e.value);
      AgreesExactly(opts, e.value, e.path, e.id, t);
    }
  }

  lemma FitIsAdmissible(opts: Options, rows: seq<Row>, os: seq<Obs>, o: Obs)
    requires Proper(os) && Enumerates(rows, os) && HaveSchema(opts, rows) && o in os
    ensures Admissible(opts, o)
  {
    ObservedExactly(rows, os, o.path);
    assert Observed(os, o.path, o.value);
    assert LeafFits(opts, rows, o.path, o.value);
    if !SeenBelow(os, o.path) {
      var t := ColumnOf(opts, rows, os, o);
      assert SchemaInference.Fits(opts, o, t);
      NotDeferred(o.value, t);
    }
  }

  lemma FitsAreCompatible(opts: Options, rows: seq<Row>, os: seq<Obs>, a: Obs, b: Obs)
    requires Proper(os) && Enumerates(rows, os) && HaveSchema(opts, rows) && a in os && b in os
    ensures Compatible(opts, a, b)
  {
    ObservedExactly(rows, os, a.path);
    assert Observed(os, a.path, a.value);
    assert LeafFits(opts, rows, a.path, a.value);
    if a.path == b.path && TypeOf(opts, a).Some? {
      var t := ColumnOf(opts, rows, os, a);
      var u := TypeOf(opts, a).value;
      assert SchemaInference.Fits(opts, a, t) && SchemaInference.Fits(opts, b, t);
      InferTypeUpToId(opts, b.value, b.path, b.id, b.id);
      AgreesUpTo(opts, b.value, b.path, b.id, b.id, t, u);
    }
  }

  lemma FitIsResolved(opts: Options, rows: seq<Row>, os: seq<Obs>, o: Obs)
    requires Proper(os) && Enumerates(rows, os) && HaveSchema(opts, rows) && o in os && !SeenBelow(os, o.path)
    ensures TypeSeenAt(opts, os, o.path)
  {
    ObservedExactly(rows, os, o.path);
    var t := ColumnOf(opts, rows, os, o);
    var row, x :| row in rows && IsLeaf(row, o.path, x) && OnlyHeldBy(opts, x, o.path, Canonical(t));
    assert Observed(os, o.path, x);
    var d :| d in os && d.path == o.path && d.value == x;
    OnlyHeldIsTyped(opts, x, o.path, d.id, t);
  }

  // ---------------------------------------------------------------- null filling

  /** Every leaf at and under a place of a row is accepted. */
  ghost predicate LeavesAccepted(schema: seq<Field>, p: Path, x: Value) {
    if IsRecord(x) then
      forall q, v {:trigger IsLeaf(x.fields, q, v)} | IsLeaf(x.fields, q, v) ::
        p + q != [] && Guided.Accepted(schema, Obs(p + q, v, 0))
    else x.Undefined? || (p != [] && Guided.Accepted(schema, Obs(p, x, 0)))
  }

  lemma AcceptedBelow(schema: seq<Field>, p: Path, x: Value, name: string)
    requires IsRecord(x) && LeavesAccepted(schema, p, x) && name in x.fields
    ensures LeavesAccepted(schema, p + [name], x.fields[name])
  {
    var y := x.fields[name];
    if IsRecord(y) {
      forall q, v | IsLeaf(y.fields, q, v) ensures Guided.Accepted(schema, Obs(p + [name] + q, v, 0)) {
        var longer := [name] + q;
        assert longer[0] == name && longer[1..] == q;
        assert IsLeaf(x.fields, longer, v) && p + longer == p + [name] + q;
      }
    } else if !y.Undefined? {
      assert IsLeaf(x.fields, [name], y);
    }
  }

  lemma {:induction false} MissingFills(f: Field)
    ensures Fillable(f, Missing)
    decreases f
  {
    if f.typ.Struct? {
      forall k | 0 <= k < |f.typ.children| ensures Fillable(f.typ.children[k], Missing) {
        MissingFills(f.typ.children[k]);
      }
    }
  }

  lemma {:induction false} AcceptedFills(schema: seq<Field>, p: Path, f: Field, x: Value)
    requires p != [] && FieldAtPath(schema, p) == Some(f) && DistinctChildren(f) && LeavesAccepted(schema, p, x)
    ensures Fillable(f, At(x))
    decreases f
  {
    if IsPlainStruct(f) && !IsNullish(x) {
      forall k | 0 <= k < |f.typ.children| ensures Fillable(f.typ.children[k], Under(x, f.typ.children[k].name)) {
        var c := f.typ.children[k];
        if c.name in Properties(x) {
          AcceptedBelow(schema, p, x, c.name);
          FieldBelow(schema, p, c.name);
          FindUnique(f.typ.children, k);
          AcceptedFills(schema, p + [c.name], c, x.fields[c.name]);
        } else {
          MissingFills(c);
        }
      }
    }
  }

  /** Whatever inference with a schema accepts, null filling does not throw on. */
  lemma AcceptedRowsFill(schema: seq<Field>, rows: seq<Row>, os: seq<Obs>, row: Row)
    requires DistinctNames(schema) && Proper(os) && Enumerates(rows, os) && row in rows
    requires Guided.Infer(schema, os).Ok?
    ensures FillStruct(schema, Record(row)).Ok?
  {
    Guided.InferMeetsSpecification(schema, os);
    forall k | 0 <= k < |schema| ensures Fillable(schema[k], Under(Record(row), schema[k].name)) {
      var f := schema[k];
      FindUnique(schema, k);
      if f.name in row {
        TopAccepted(schema, rows, os, row, f.name);
        AcceptedFills(schema, [f.name], f, row[f.name]);
      } else {
        MissingFills(f);
      }
    }
    FillStructSucceeds(schema, Record(row));
  }

  lemma TopAccepted(schema: seq<Field>, rows: seq<Row>, os: seq<Obs>, row: Row, name: string)
    requires Proper(os) && Enumerates(rows, os) && row in rows && name in row && Guided.Succeeds(schema, os)
    ensures LeavesAccepted(schema, [name], row[name])
  {
    var x := row[name];
    if IsRecord(x) {
      forall q, v | IsLeaf(x.fields, q, v) ensures Guided.Accepted(schema, Obs([name] + q, v, 0)) {
        var longer := [name] + q;
        assert longer[0] == name && longer[1..] == q;
        LeafAccepted(schema, rows, os, row, longer, v);
      }
    } else if !x.Undefined? {
      LeafAccepted(schema, rows, os, row, [name], x);
    }
  }

  lemma LeafAccepted(schema: seq<Field>, rows: seq<Row>, os: seq<Obs>, row: Row, p: Path, v: Value)
    requires Proper(os) && Enumerates(rows, os) && row in rows && IsLeaf(row, p, v) && Guided.Succeeds(schema, os)
    ensures p != [] && Guided.Accepted(schema, Obs(p, v, 0))
  {
    assert Observed(os, p, v);
    var o :| o in os && o.path == p && o.value == v;
    assert Guided.Accepted(schema, o);
  }
}
