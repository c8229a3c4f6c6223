/**
 * `makeArrowTable` for tables with blobs: every blob value is coerced and widened, the rows are
 * given to inference, and the columns are made of the inferred fields, where blobs are coerced
 * again. Says exactly when all of that succeeds, and what is in the columns then.
 */
module BlobPipeline {
  import opened Values
  import opened ArrowTypes
  import opened Blobs
  import opened Columns
  import opened TypeInference
  import opened BlobTraversal
  import opened BlobConversion
  import Inference = SchemaInference
  import Guided = SchemaGuidedInference
  import Rows = SchemaInferrer

  type Observations = seq<Inference.Obs>

  // ---------------------------------------------------------------- the steps

  /** `mapBlobInputs` with the coercing visitor. */
  function MapAll(schema: seq<Field>, rows: seq<Row>): (r: Result<seq<Row>>)
    ensures r.Ok? <==> forall i | 0 <= i < |rows| :: MapFields(Coercing(), schema, rows[i]).Ok?
    ensures r.Ok? ==>
              && |r.value| == |rows|
              && forall i | 0 <= i < |rows| :: r.value[i] == rows[i] + MapFields(Coercing(), schema, rows[i]).value
  {
    if forall i | 0 <= i < |rows| :: MapFields(Coercing(), schema, rows[i]).Ok? then
      Ok(seq(|rows|, i requires 0 <= i < |rows| && MapFields(Coercing(), schema, rows[i]).Ok? =>
        rows[i] + MapFields(Coercing(), schema, rows[i]).value))
    else Err
  }

  /** `validateBlobField`: no blob is inside a fixed-size list. */
  predicate ValidBlobField(f: Field)
    decreases f
  {
    match f.typ
    case FixedSizeList(_, item) => !ContainsBlob(item) && ValidBlobField(item)
    case List(item) => ValidBlobField(item)
    case Struct(children) => forall k | 0 <= k < |children| :: ValidBlobField(children[k])
    case _ => true
  }

  /** No blob is anywhere under a fixed-size list, and nothing else is refused. */
  lemma {:induction false} ValidBlobFieldExactly(f: Field)
    ensures ValidBlobField(f) <==>
            forall g | FieldInside(g, f) && g.typ.FixedSizeList? ::
              forall h | FieldInside(h, g.typ.valueField) :: !IsBlobField(h)
    decreases f
  {
    match f.typ {
      case FixedSizeList(_, item) =>
        ContainsBlobExactly(item);
        ValidBlobFieldExactly(item);
      case List(item) => ValidBlobFieldExactly(item);
      case Struct(children) =>
        forall k | 0 <= k < |children| { ValidBlobFieldExactly(children[k]); }
      case _ =>
    }
  }

  function AsValues(rows: seq<Row>): (r: seq<Value>)
    ensures |r| == |rows| && forall i | 0 <= i < |rows| :: r[i] == Record(rows[i])
  {
    seq(|rows|, i requires 0 <= i < |rows| => Record(rows[i]))
  }

  /** What follows the mapping: inference, the check of the inferred fields, and one column for each. */
  ghost predicate Builds(schema: seq<Field>, mapped: seq<Row>, os: Observations)
    requires Inference.Proper(os) && DistinctNames(schema)
  {
    && Guided.Infer(schema, os).Ok?
    && (forall g | g in Guided.Infer(schema, os).value :: ValidBlobField(g))
    && (forall g | g in Guided.Infer(schema, os).value :: Transpose(AsValues(mapped), g, []).Ok?)
  }

  /** The rows, mapped, with the observations that inference makes of them. */
  ghost predicate Context(schema: seq<Field>, rows: seq<Row>, mapped: seq<Row>, os: Observations) {
    && DistinctFields(schema) && MapAll(schema, rows) == Ok(mapped)
    && Inference.Proper(os) && Rows.Enumerates(mapped, os)
  }

  // ---------------------------------------------------------------- the condition

  /**
   * The storage can take a value, which is not null: it is a struct of blob columns, among them the
   * one the value fills; storage with two columns has data and uri; and no column that the value
   * fills is a struct.
   */
  predicate Takes(v: Value, storage: Field) {
    && OnlyBlobColumns(storage) && HasChild(storage, SourceOf(v))
    && (|storage.typ.children| == 2 ==> HasChild(storage, "data") && HasChild(storage, "uri"))
    && forall i | 0 <= i < |storage.typ.children| && storage.typ.children[i].typ.Struct? ::
         !Fills(v, storage.typ.children[i].name)
  }

  /** Every blob value under a field coerces, and its storage can take it. Inference does not look into lists. */
  predicate Carries(f: Field, v: Value)
    decreases f
  {
    if IsBlobField(f) then Coerce(v, f).Ok? && (IsNullish(v) || Takes(v, f))
    else if f.typ.Struct? && IsObject(v) then
      forall i | 0 <= i < |f.typ.children| && f.typ.children[i].name in Properties(v) ::
        Carries(f.typ.children[i], Properties(v)[f.typ.children[i].name])
    else Survive(f, v)
  }

  predicate RowCarries(schema: seq<Field>, row: Row) {
    forall j | 0 <= j < |schema| && schema[j].name in row :: Carries(schema[j], row[schema[j].name])
  }

  lemma {:induction false} CarriedSurvives(f: Field, v: Value)
    requires Carries(f, v)
    ensures Survive(f, v)
    decreases f
  {
    if !IsBlobField(f) && f.typ.Struct? && IsObject(v) {
      forall i | 0 <= i < |f.typ.children| && f.typ.children[i].name in Properties(v)
        ensures Survive(f.typ.children[i], Properties(v)[f.typ.children[i].name])
      {
        CarriedSurvives(f.typ.children[i], Properties(v)[f.typ.children[i].name]);
      }
    }
  }

  /** The mapping throws exactly when some blob value does not coerce. */
  lemma MappingSucceeds(schema: seq<Field>, rows: seq<Row>)
    ensures MapAll(schema, rows).Ok? <==>
            forall i | 0 <= i < |rows| :: forall p | p in PositionsIn(schema, rows[i]) :: Coerce(p.value, p.storage).Ok?
  {
    forall i | 0 <= i < |rows|
      ensures MapFields(Coercing(), schema, rows[i]).Ok? <==>
              forall p | p in PositionsIn(schema, rows[i]) :: Coerce(p.value, p.storage).Ok?
    {
      MapFieldsSucceeds(Coercing(), schema, rows[i]);
      forall p | p in PositionsIn(schema, rows[i])
        ensures Coercing()(p.value, p.storage).Ok? <==> Coerce(p.value, p.storage).Ok?
      {
      }
    }
  }

  // ---------------------------------------------------------------- what inference leaves

  /** What the restriction leaves of a field that was seen. */
  ghost function Kept(f: Field, p: Path, os: seq<Inference.Obs>): Field {
    if Inference.SeenBelow(os, p) && f.typ.Struct? then f.(typ := Struct(Guided.Restrict(f.typ.children, p, os))) else f
  }

  ghost predicate Seen(os: Observations, p: Path) {
    Inference.SeenBelow(os, p) || Inference.SeenAt(os, p)
  }

  /** A field of the restriction: what is left of a field that was seen. */
  ghost predicate IsKept(fields: seq<Field>, prefix: Path, os: Observations, g: Field) {
    exists i | 0 <= i < |fields| ::
      Seen(os, prefix + [fields[i].name]) && g == Kept(fields[i], prefix + [fields[i].name], os)
  }

  /** The restriction has exactly the fields that were seen, each as it is kept. */
  lemma {:induction false} RestrictIsKept(fields: seq<Field>, prefix: Path, os: Observations)
    requires forall i, j | 0 <= i < j < |fields| :: fields[i].name != fields[j].name
    ensures forall g :: g in Guided.Restrict(fields, prefix, os) <==> IsKept(fields, prefix, os, g)
    ensures forall i, j | 0 <= i < j < |Guided.Restrict(fields, prefix, os)| ::
              Guided.Restrict(fields, prefix, os)[i].name != Guided.Restrict(fields, prefix, os)[j].name
    decreases |fields|
  {
    if fields != [] {
      var first, rest := fields[0], Guided.Restrict(fields[1..], prefix, os);
      var p, all := prefix + [first.name], Guided.Restrict(fields, prefix, os);
      RestrictIsKept(fields[1..], prefix, os);
      assert all == (if Seen(os, p) then [Kept(first, p, os)] else []) + rest;
      forall g ensures IsKept(fields, prefix, os, g) <==>
                       (Seen(os, p) && g == Kept(first, p, os)) || IsKept(fields[1..], prefix, os, g)
      {
        KeptSplits(fields, prefix, os, g);
      }
      forall g | g in rest ensures g.name != first.name {
        assert IsKept(fields[1..], prefix, os, g);
      }
    }
  }

  lemma KeptSplits(fields: seq<Field>, prefix: Path, os: Observations, g: Field)
    requires fields != []
    ensures IsKept(fields, prefix, os, g) <==>
            || (Seen(os, prefix + [fields[0].name]) && g == Kept(fields[0], prefix + [fields[0].name], os))
            || IsKept(fields[1..], prefix, os, g)
  {
    if IsKept(fields, prefix, os, g) {
      var i :| 0 <= i < |fields| && Seen(os, prefix + [fields[i].name]) &&
        g == Kept(fields[i], prefix + [fields[i].name], os);
      if i > 0 { assert fields[1..][i - 1] == fields[i]; }
    }
    if IsKept(fields[1..], prefix, os, g) {
      var i :| 0 <= i < |fields| - 1 && Seen(os, prefix + [fields[1..][i].name]) &&
               g == Kept(fields[1..][i], prefix + [fields[1..][i].name], os);
      assert fields[i + 1] == fields[1..][i];
    }
  }

  /** Fields that were all seen, and nothing below them, are all kept as they are. */
  lemma {:induction false} RestrictWhole(fields: seq<Field>, prefix: Path, os: Observations)
    requires forall i | 0 <= i < |fields| ::
               Inference.SeenAt(os, prefix + [fields[i].name]) && !Inference.SeenBelow(os, prefix + [fields[i].name])
    ensures Guided.Restrict(fields, prefix, os) == fields
    decreases |fields|
  {
    if fields != [] {
      RestrictWhole(fields[1..], prefix, os);
      assert fields == [fields[0]] + fields[1..];
    }
  }

  lemma SeenAbove(os: seq<Inference.Obs>, p: Path, q: Path)
    requires p < q && (Inference.SeenBelow(os, q) || Inference.SeenAt(os, q))
    ensures Inference.SeenBelow(os, p)
  {
    var o :| o in os && q <= o.path;
    assert p < o.path;
  }

  /** The columns of a first-pass value are neither records nor undefined. */
  lemma FirstPassCells(v: Value, storage: Field, k: string)
    requires FirstPass(v, storage).Ok? && FirstPass(v, storage).value.Record?
    requires k in FirstPass(v, storage).value.fields
    ensures !FirstPass(v, storage).value.fields[k].Record? && !FirstPass(v, storage).value.fields[k].Undefined?
  {
    MappedCell(v, storage, k);
    ColumnKinds(Coerce(v, storage).value.value, k);
  }

  lemma MappedCell(v: Value, storage: Field, k: string)
    requires FirstPass(v, storage).Ok? && FirstPass(v, storage).value.Record?
    requires k in FirstPass(v, storage).value.fields
    ensures Coerce(v, storage).Ok? && Coerce(v, storage).value.Some?
    ensures FirstPass(v, storage).value.fields[k] == BlobColumn(Coerce(v, storage).value.value, k)
  {
    if storage.typ.Struct? && |storage.typ.children| != 2 { WidenedColumns(Coerce(v, storage).value.value, storage); }
  }

  /** A column is null, bytes, text or a number. */
  lemma ColumnKinds(b: BlobValue, k: string)
    requires Normal(b)
    ensures Guided.StructValue(BlobColumn(b, k)) <==> BlobColumn(b, k).Null?
    ensures Supported(BlobColumn(b, k)) && !BlobColumn(b, k).Record? && !BlobColumn(b, k).Undefined?
  {
  }

  /** A path through records of a row ends at `w`. */
  ghost predicate Holds(row: map<string, Value>, path: Path, w: Value)
    decreases |path|
  {
    path != [] && path[0] in row &&
    var x := row[path[0]];
    if |path| == 1 then x == w else x.Record? && Holds(x.fields, path[1..], w)
  }

  /** What is held and is not a record is a leaf of the row. */
  lemma {:induction false} HeldIsLeaf(row: map<string, Value>, path: Path, w: Value)
    requires Holds(row, path, w) && !Rows.IsRecord(w) && !w.Undefined?
    ensures Rows.IsLeaf(row, path, w)
    decreases |path|
  {
    if |path| > 1 { HeldIsLeaf(row[path[0]].fields, path[1..], w); }
  }

  lemma {:induction false} HeldColumn(row: map<string, Value>, path: Path, w: Value, k: string)
    requires Holds(row, path, w) && w.Record? && k in w.fields
    ensures Holds(row, path + [k], w.fields[k])
    decreases |path|
  {
    assert (path + [k])[1..] == path[1..] + [k];
    if |path| > 1 { HeldColumn(row[path[0]].fields, path[1..], w, k); }
  }

  lemma {:induction false} HeldParent(row: Row, path: Path, k: string, x: Value) returns (w: Value)
    requires path != [] && Holds(row, path + [k], x)
    ensures Holds(row, path, w) && w.Record? && k in w.fields && w.fields[k] == x
    decreases |path|
  {
    assert (path + [k])[1..] == path[1..] + [k];
    if |path| == 1 {
      w := row[path[0]];
      assert (path + [k])[1..] == [k];
    } else {
      w := HeldParent(row[path[0]].fields, path[1..], k, x);
    }
  }

  /** A leaf below a path is a leaf of the record held there. */
  lemma {:induction false} LeafBelow(row: Row, path: Path, q: Path, x: Value) returns (w: Value)
    requires path != [] && path < q && Rows.IsLeaf(row, q, x)
    ensures Holds(row, path, w) && Rows.IsRecord(w) && Rows.IsLeaf(w.fields, q[|path|..], x)
    decreases |path|
  {
    assert q[0] == path[0];
    if |path| == 1 {
      w := row[path[0]];
    } else {
      assert path[1..] < q[1..];
      w := LeafBelow(row[path[0]].fields, path[1..], q[1..], x);
      assert q[1..][|path| - 1..] == q[|path|..];
    }
  }

  lemma LeafSeen(mapped: seq<Row>, os: Observations, i: nat, q: Path, x: Value) returns (o: Inference.Obs)
    requires i < |mapped| && Rows.Enumerates(mapped, os) && Rows.IsLeaf(mapped[i], q, x)
    ensures o in os && o.path == q && o.value == x && Inference.SeenAt(os, q)
  {
    assert mapped[i] in mapped && Rows.Observed(os, q, x);
    o :| o in os && o.path == q && o.value == x;
  }

  // ---------------------------------------------------------------- only mapped values are at blob positions

  /** A value that the mapping can give under a field. */
  ghost predicate Image(f: Field, w: Value) {
    exists v :: MapField(Coercing(), f, v).Ok? && w == Mapped(f, v)
  }

  ghost predicate AllImages(mapped: seq<Row>, p: Path, f: Field) {
    forall i, w | 0 <= i < |mapped| && Holds(mapped[i], p, w) :: Image(f, w)
  }

  lemma ImageBelow(f: Field, w: Value, i: nat)
    requires !IsBlobField(f) && f.typ.Struct? && Distinct(f) && Image(f, w) && w.Record?
    requires i < |f.typ.children| && f.typ.children[i].name in w.fields
    ensures Image(f.typ.children[i], w.fields[f.typ.children[i].name])
  {
    var v :| MapField(Coercing(), f, v).Ok? && w == Mapped(f, v);
    MappedObject(Coercing(), f, v);
    var name, props := f.typ.children[i].name, Properties(v);
    if name in MapFields(Coercing(), f.typ.children, props).value {
      MappedNames(Coercing(), f.typ.children, props, name);
    }
    MappedChild(Coercing(), f.typ.children, props, i);
    assert Mapped(f.typ.children[i], props[name]) == w.fields[name];
  }

  lemma ImagesBelow(mapped: seq<Row>, p: Path, f: Field, i: nat)
    requires p != [] && AllImages(mapped, p, f)
    requires !IsBlobField(f) && f.typ.Struct? && Distinct(f) && i < |f.typ.children|
    ensures AllImages(mapped, p + [f.typ.children[i].name], f.typ.children[i])
  {
    var name := f.typ.children[i].name;
    forall r, x | 0 <= r < |mapped| && Holds(mapped[r], p + [name], x) ensures Image(f.typ.children[i], x) {
      var w := HeldParent(mapped[r], p, name, x);
      ImageBelow(f, w, i);
    }
  }

  lemma ImagesAtTop(schema: seq<Field>, rows: seq<Row>, mapped: seq<Row>, j: nat)
    requires DistinctFields(schema) && MapAll(schema, rows) == Ok(mapped) && j < |schema|
    ensures AllImages(mapped, [schema[j].name], schema[j])
  {
    var name := schema[j].name;
    forall i, w | 0 <= i < |mapped| && Holds(mapped[i], [name], w) ensures Image(schema[j], w) {
      if name in MapFields(Coercing(), schema, rows[i]).value {
        MappedNames(Coercing(), schema, rows[i], name);
      }
      HeldAtTop(schema, rows, mapped, i, j);
    }
  }

  /** A row holds, under the name of a field, the mapped value. */
  lemma HeldAtTop(schema: seq<Field>, rows: seq<Row>, mapped: seq<Row>, i: nat, j: nat)
    requires DistinctFields(schema) && MapAll(schema, rows) == Ok(mapped) && i < |rows| && j < |schema|
    requires schema[j].name in rows[i]
    ensures MapField(Coercing(), schema[j], rows[i][schema[j].name]).Ok?
    ensures schema[j].name in mapped[i] && mapped[i][schema[j].name] == Mapped(schema[j], rows[i][schema[j].name])
    ensures Holds(mapped[i], [schema[j].name], Mapped(schema[j], rows[i][schema[j].name]))
  {
    MappedChild(Coercing(), schema, rows[i], j);
  }

  /** What the mapping leaves at a blob position: null, undefined, or columns that are not records. */
  lemma BlobImage(f: Field, w: Value)
    requires IsBlobField(f) && Image(f, w)
    ensures IsNullish(w) || w.Record?
    ensures w.Record? ==> forall k | k in w.fields :: !w.fields[k].Record? && !w.fields[k].Undefined?
  {
    var v :| MapField(Coercing(), f, v).Ok? && w == Mapped(f, v);
    CoercedIsFirstPass(v, f);
    if w.Record? {
      forall k | k in w.fields ensures !w.fields[k].Record? && !w.fields[k].Undefined? {
        FirstPassCells(v, f, k);
      }
    }
  }

  // ---------------------------------------------------------------- inference and the blob fields

  /** Where nothing was seen the row has nothing. */
  lemma {:induction false} UnseenIsIdle(mapped: seq<Row>, os: Observations, i: nat, p: Path, f: Field, v: Value)
    requires i < |mapped| && p != [] && Rows.Enumerates(mapped, os) && Distinct(f)
    requires MapField(Coercing(), f, v).Ok? && Holds(mapped[i], p, Mapped(f, v)) && !Seen(os, p)
    ensures Idle(f, v)
    decreases f
  {
    var w := Mapped(f, v);
    if !Rows.IsRecord(w) && !w.Undefined? {
      HeldIsLeaf(mapped[i], p, w);
      var o := LeafSeen(mapped, os, i, p, w);
    }
    if IsBlobField(f) {
      if !IsNullish(v) { BlobIsSeen(mapped, os, i, p, f, v); }
    } else if f.typ.Struct? && IsObject(v) {
      MappedObject(Coercing(), f, v);
      forall k | 0 <= k < |f.typ.children| && f.typ.children[k].name in Properties(v)
        ensures Idle(f.typ.children[k], Properties(v)[f.typ.children[k].name])
      {
        var name := f.typ.children[k].name;
        MappedChild(Coercing(), f.typ.children, Properties(v), k);
        HeldColumn(mapped[i], p, w, name);
        if Seen(os, p + [name]) { SeenAbove(os, p, p + [name]); }
        UnseenIsIdle(mapped, os, i, p + [name], f.typ.children[k], Properties(v)[name]);
      }
    } else if f.typ.List? && v.Array? {
      MappedList(Coercing(), f, v);
    }
  }

  lemma BlobIsSeen(mapped: seq<Row>, os: Observations, i: nat, p: Path, f: Field, v: Value)
    requires i < |mapped| && p != [] && Rows.Enumerates(mapped, os) && IsBlobField(f) && !IsNullish(v)
    requires MapField(Coercing(), f, v).Ok? && Holds(mapped[i], p, Mapped(f, v))
    ensures Seen(os, p)
    ensures Mapped(f, v).Record? && forall k | k in Mapped(f, v).fields :: Inference.SeenAt(os, p + [k])
  {
    var w := Mapped(f, v);
    CoercedIsFirstPass(v, f);
    CoercedColumns(v, f);
    forall k | k in w.fields ensures Inference.SeenAt(os, p + [k]) {
      FirstPassCells(v, f, k);
      HeldColumn(mapped[i], p, w, k);
      HeldIsLeaf(mapped[i], p + [k], w.fields[k]);
      var o := LeafSeen(mapped, os, i, p + [k], w.fields[k]);
    }
    if w.fields == map[] {
      HeldIsLeaf(mapped[i], p, w);
      var o := LeafSeen(mapped, os, i, p, w);
    } else {
      var k :| k in w.fields;
      SeenAbove(os, p, p + [k]);
    }
  }

  /** Under a blob position leaves are one step deep. */
  lemma LeafOfBlob(mapped: seq<Row>, i: nat, p: Path, f: Field, q: Path, x: Value)
    requires i < |mapped| && p != [] && p < q && IsBlobField(f) && AllImages(mapped, p, f) &&
             Rows.IsLeaf(mapped[i], q, x)
    ensures |q| == |p| + 1
  {
    var w := LeafBelow(mapped[i], p, q, x);
    assert Image(f, w);
    BlobImage(f, w);
  }

  lemma NothingBelowColumns(mapped: seq<Row>, os: Observations, p: Path, f: Field, k: string)
    requires p != [] && IsBlobField(f) && AllImages(mapped, p, f) && Rows.Enumerates(mapped, os)
    ensures !Inference.SeenBelow(os, p + [k])
  {
    forall o | o in os ensures !(p + [k] < o.path) {
      assert Rows.FromRows(mapped, o);
      var row :| row in mapped && Rows.IsLeaf(row, o.path, o.value);
      var i :| 0 <= i < |mapped| && mapped[i] == row;
      if p < o.path { LeafOfBlob(mapped, i, p, f, o.path, o.value); }
      assert p < p + [k];
    }
  }

  /** The field at one more name. */
  lemma ChildAtPath(schema: seq<Field>, p: Path, f: Field, i: nat)
    requires p != [] && FieldAtPath(schema, p) == Some(f) && f.typ.Struct? && Distinct(f) && i < |f.typ.children|
    ensures FieldAtPath(schema, p + [f.typ.children[i].name]) == Some(f.typ.children[i])
  {
    FieldBelow(schema, p, f.typ.children[i].name);
    FindUnique(f.typ.children, i);
  }

  /** A column of the blob at a path that the schema has is a child of the storage. */
  lemma ColumnAtPath(schema: seq<Field>, p: Path, f: Field, k: string)
    requires p != [] && FieldAtPath(schema, p) == Some(f)
    ensures FieldAtPath(schema, p + [k]).Some? <==> HasChild(f, k)
    ensures FieldAtPath(schema, p + [k]).Some? ==>
              FieldAtPath(schema, p + [k]).value in f.typ.children && FieldAtPath(schema, p + [k]).value.name == k
  {
    FieldBelow(schema, p, k);
    if HasChild(f, k) {
      var i :| 0 <= i < |f.typ.children| && f.typ.children[i].name == k;
      assert f.typ.children[i] in f.typ.children;
    }
  }

  /** The mapped columns are exactly those of the storage, if inference has them all. */
  lemma ColumnsAreStorage(f: Field, v: Value)
    requires IsBlobField(f) && f.typ.Struct? && Distinct(f) && !IsNullish(v) && MapField(Coercing(), f, v).Ok?
    requires Mapped(f, v).Record? && forall k | k in Mapped(f, v).fields :: HasChild(f, k)
    ensures forall i | 0 <= i < |f.typ.children| :: f.typ.children[i].name in Mapped(f, v).fields
  {
    CoercedIsFirstPass(v, f);
    CoercedColumns(v, f);
    var b := Coerce(v, f).value.value;
    if |f.typ.children| == 2 {
      assert "data" in Mapped(f, v).fields && "uri" in Mapped(f, v).fields;
      assert f.typ.children[0].name != f.typ.children[1].name;
    } else {
      WidenedColumns(b, f);
    }
  }

  ghost predicate AllAccepted(schema: seq<Field>, os: Observations)
    requires Inference.Proper(os)
  {
    forall o | o in os :: Guided.Accepted(schema, o)
  }

  /** Inference leaves the storage of a blob that is not null whole. */
  lemma BlobKeptWhole(
    schema: seq<Field>, mapped: seq<Row>, os: Observations, i: nat, p: Path, f: Field, v: Value)
    requires Inference.Proper(os) && Rows.Enumerates(mapped, os) && AllAccepted(schema, os)
    requires i < |mapped| && p != [] && FieldAtPath(schema, p) == Some(f) && Distinct(f) && AllImages(mapped, p, f)
    requires IsBlobField(f) && !IsNullish(v) && MapField(Coercing(), f, v).Ok? && Holds(mapped[i], p, Mapped(f, v))
    ensures Kept(f, p, os) == f
  {
    if f.typ.Struct? {
      BlobIsSeen(mapped, os, i, p, f, v);
      forall k | k in Mapped(f, v).fields ensures HasChild(f, k) {
        var o :| o in os && o.path == p + [k];
        assert Guided.Accepted(schema, o);
        ColumnAtPath(schema, p, f, k);
      }
      ColumnsAreStorage(f, v);
      forall j | 0 <= j < |f.typ.children| ensures !Inference.SeenBelow(os, p + [f.typ.children[j].name]) {
        NothingBelowColumns(mapped, os, p, f, f.typ.children[j].name);
      }
      RestrictWhole(f.typ.children, p, os);
    }
  }

  /** What inference leaves of a field offers every row what it needs. */
  lemma {:induction false} InferenceOffers(
    schema: seq<Field>, mapped: seq<Row>, os: Observations, i: nat, p: Path, f: Field, v: Value)
    requires Inference.Proper(os) && Rows.Enumerates(mapped, os) && AllAccepted(schema, os)
    requires i < |mapped| && p != [] && FieldAtPath(schema, p) == Some(f) && Distinct(f) && AllImages(mapped, p, f)
    requires MapField(Coercing(), f, v).Ok? && Holds(mapped[i], p, Mapped(f, v))
    ensures Offers(f, Kept(f, p, os), v)
    decreases f, 1
  {
    if IsBlobField(f) {
      if !IsNullish(v) { BlobKeptWhole(schema, mapped, os, i, p, f, v); }
    } else if f.typ.Struct? {
      if Kept(f, p, os) == f {
        OffersItself(f, v);
      } else {
        var fields, kept := f.typ.children, Guided.Restrict(f.typ.children, p, os);
        forall a, b | 0 <= a < |fields| && 0 <= b < |kept| && fields[a].name == kept[b].name
          ensures OffersChild(fields[a], kept[b], v)
        {
          KeptChildOffers(schema, mapped, os, i, p, f, v, a, b);
        }
        forall a | 0 <= a < |fields| && IsObject(v) && fields[a].name in Properties(v) && Unnamed(kept, fields[a].name)
          ensures Idle(fields[a], Properties(v)[fields[a].name])
        {
          DroppedIsIdle(schema, mapped, os, i, p, f, v, a);
        }
        KeptNames(fields, p, os);
      }
    }
  }

  lemma {:induction false} KeptChildOffers(
    schema: seq<Field>, mapped: seq<Row>, os: Observations, i: nat, p: Path, f: Field, v: Value, a: nat, b: nat)
    requires Inference.Proper(os) && Rows.Enumerates(mapped, os) && AllAccepted(schema, os)
    requires i < |mapped| && p != [] && FieldAtPath(schema, p) == Some(f) && Distinct(f) && AllImages(mapped, p, f)
    requires MapField(Coercing(), f, v).Ok? && Holds(mapped[i], p, Mapped(f, v)) && !IsBlobField(f) && f.typ.Struct?
    requires a < |f.typ.children| && b < |Guided.Restrict(f.typ.children, p, os)|
    requires f.typ.children[a].name == Guided.Restrict(f.typ.children, p, os)[b].name
    ensures OffersChild(f.typ.children[a], Guided.Restrict(f.typ.children, p, os)[b], v)
    decreases f, 0
  {
    var c := f.typ.children[a];
    KeptChild(f.typ.children, p, os, Guided.Restrict(f.typ.children, p, os)[b], a);
    if IsObject(v) && c.name in Properties(v) {
      HeldObject(schema, mapped, os, i, p, f, v);
      ChildHeld(mapped, i, p, f, v, a);
      ChildAtPath(schema, p, f, a);
      ImagesBelow(mapped, p, f, a);
      assert Distinct(c);
      InferenceOffers(schema, mapped, os, i, p + [c.name], c, Properties(v)[c.name]);
    }
  }

  /** Nothing is observed under a field that inference dropped. */
  lemma DroppedIsIdle(
    schema: seq<Field>, mapped: seq<Row>, os: Observations, i: nat, p: Path, f: Field, v: Value, a: nat)
    requires Inference.Proper(os) && Rows.Enumerates(mapped, os) && AllAccepted(schema, os)
    requires i < |mapped| && p != [] && Distinct(f) && !IsBlobField(f) && f.typ.Struct? && IsObject(v)
    requires MapField(Coercing(), f, v).Ok? && Holds(mapped[i], p, Mapped(f, v))
    requires a < |f.typ.children| && f.typ.children[a].name in Properties(v)
    requires Unnamed(Guided.Restrict(f.typ.children, p, os), f.typ.children[a].name)
    ensures Idle(f.typ.children[a], Properties(v)[f.typ.children[a].name])
  {
    var c := f.typ.children[a];
    KeptNames(f.typ.children, p, os);
    HeldObject(schema, mapped, os, i, p, f, v);
    ChildHeld(mapped, i, p, f, v, a);
    assert Distinct(c);
    UnseenIsIdle(mapped, os, i, p + [c.name], c, Properties(v)[c.name]);
  }

  /** An object that inference accepted is a record. */
  lemma HeldObject(
    schema: seq<Field>, mapped: seq<Row>, os: Observations, i: nat, p: Path, f: Field, v: Value)
    requires Inference.Proper(os) && Rows.Enumerates(mapped, os) && AllAccepted(schema, os)
    requires i < |mapped| && p != [] && !IsBlobField(f) && f.typ.Struct? && IsObject(v)
    requires MapField(Coercing(), f, v).Ok? && Holds(mapped[i], p, Mapped(f, v))
    ensures Rows.IsRecord(Mapped(f, v))
  {
    MappedObject(Coercing(), f, v);
    AcceptedObject(schema, mapped, os, i, p, Mapped(f, v));
  }

  lemma AcceptedObject(schema: seq<Field>, mapped: seq<Row>, os: Observations, i: nat, p: Path, w: Value)
    requires Inference.Proper(os) && Rows.Enumerates(mapped, os) && AllAccepted(schema, os)
    requires i < |mapped| && p != [] && Holds(mapped[i], p, w) && IsObject(w)
    ensures Rows.IsRecord(w)
  {
    assert Rows.IsRecord(w) || !Supported(w);
    if !Rows.IsRecord(w) {
      HeldIsLeaf(mapped[i], p, w);
      var o := LeafSeen(mapped, os, i, p, w);
    }
  }

  /** The names of the kept fields are those of the fields that were seen. */
  lemma KeptNames(fields: seq<Field>, p: Path, os: Observations)
    requires forall i, j | 0 <= i < j < |fields| :: fields[i].name != fields[j].name
    ensures
      var kept := Guided.Restrict(fields, p, os);
      && (forall i, j | 0 <= i < j < |kept| :: kept[i].name != kept[j].name)
      && (forall b | 0 <= b < |kept| :: !Unnamed(fields, kept[b].name))
      && (forall a | 0 <= a < |fields| && Unnamed(kept, fields[a].name) :: !Seen(os, p + [fields[a].name]))
  {
    var kept := Guided.Restrict(fields, p, os);
    RestrictIsKept(fields, p, os);
    forall b | 0 <= b < |kept| ensures !Unnamed(fields, kept[b].name) {
      assert kept[b] in kept && IsKept(fields, p, os, kept[b]);
    }
    forall a | 0 <= a < |fields| && Seen(os, p + [fields[a].name]) ensures !Unnamed(kept, fields[a].name) {
      var g := Kept(fields[a], p + [fields[a].name], os);
      assert IsKept(fields, p, os, g);
      var b :| 0 <= b < |kept| && kept[b] == g;
      assert kept[b].name == fields[a].name;
    }
  }

  /** The kept field of a name comes from the field of that name. */
  lemma KeptChild(fields: seq<Field>, p: Path, os: Observations, g: Field, a: nat)
    requires forall i, j | 0 <= i < j < |fields| :: fields[i].name != fields[j].name
    requires a < |fields| && g in Guided.Restrict(fields, p, os) && g.name == fields[a].name
    ensures g == Kept(fields[a], p + [fields[a].name], os) && Seen(os, p + [fields[a].name])
  {
    RestrictIsKept(fields, p, os);
    assert IsKept(fields, p, os, g);
    var i :| 0 <= i < |fields| && Seen(os, p + [fields[i].name]) && g == Kept(fields[i], p + [fields[i].name], os);
    assert i == a;
  }

  /** The mapped property of a held object is held. */
  lemma ChildHeld(mapped: seq<Row>, i: nat, p: Path, f: Field, v: Value, a: nat)
    requires i < |mapped| && p != [] && !IsBlobField(f) && f.typ.Struct? && Distinct(f) && IsObject(v)
    requires MapField(Coercing(), f, v).Ok? && Holds(mapped[i], p, Mapped(f, v)) && Mapped(f, v).Record?
    requires a < |f.typ.children| && f.typ.children[a].name in Properties(v)
    ensures
      var x := Properties(v)[f.typ.children[a].name];
      MapField(Coercing(), f.typ.children[a], x).Ok? &&
      Holds(mapped[i], p + [f.typ.children[a].name], Mapped(f.typ.children[a], x))
  {
    MappedObject(Coercing(), f, v);
    MappedChild(Coercing(), f.typ.children, Properties(v), a);
    HeldColumn(mapped[i], p, Mapped(f, v), f.typ.children[a].name);
  }

  // ---------------------------------------------------------------- accepted blobs are taken

  /** Where inference accepts every column of a widened blob, the storage can take the value. */
  lemma AcceptedIsTaken(schema: seq<Field>, mapped: seq<Row>, os: Observations, i: nat, p: Path, f: Field, v: Value)
    requires Inference.Proper(os) && Rows.Enumerates(mapped, os) && AllAccepted(schema, os)
    requires i < |mapped| && p != [] && FieldAtPath(schema, p) == Some(f) && Distinct(f) && IsBlobField(f)
    requires MapField(Coercing(), f, v).Ok? && Holds(mapped[i], p, Mapped(f, v)) && !IsNullish(v) && Survives(v, f)
    ensures Takes(v, f)
  {
    var w := Mapped(f, v);
    BlobIsSeen(mapped, os, i, p, f, v);
    AcceptedObject(schema, mapped, os, i, p, w);
    forall k | k in w.fields ensures HasChild(f, k) && ColumnTakes(f, k, w.fields[k]) {
      AcceptedColumn(schema, mapped, os, i, p, f, v, k);
    }
    TakesFromColumns(f, v);
  }

  /** The storage takes a value whose mapped columns it has and takes. */
  lemma TakesFromColumns(f: Field, v: Value)
    requires IsBlobField(f) && Distinct(f) && !IsNullish(v) && MapField(Coercing(), f, v).Ok? && Survives(v, f)
    requires Rows.IsRecord(Mapped(f, v))
    requires forall k | k in Mapped(f, v).fields :: HasChild(f, k) && ColumnTakes(f, k, Mapped(f, v).fields[k])
    ensures Takes(v, f)
  {
    var w := Mapped(f, v);
    var k :| k in w.fields;
    assert HasChild(f, k);
    ColumnsAreStorage(f, v);
    forall j | 0 <= j < |f.typ.children| && f.typ.children[j].typ.Struct? ensures !Fills(v, f.typ.children[j].name) {
      FilledIsNoStruct(f, v, j);
    }
    if |f.typ.children| == 2 { TwoColumns(f, v); }
  }

  /** Storage with two columns that inference has is data and uri. */
  lemma TwoColumns(f: Field, v: Value)
    requires IsBlobField(f) && Distinct(f) && !IsNullish(v) && MapField(Coercing(), f, v).Ok?
    requires f.typ.Struct? && |f.typ.children| == 2
    requires Mapped(f, v).Record? && forall k | k in Mapped(f, v).fields :: HasChild(f, k)
    ensures HasChild(f, "data") && HasChild(f, "uri") && OnlyBlobColumns(f) && HasChild(f, SourceOf(v))
  {
    CoercedIsFirstPass(v, f);
    CoercedColumns(v, f);
    assert "data" in Mapped(f, v).fields && "uri" in Mapped(f, v).fields;
    assert f.typ.children[0].name != f.typ.children[1].name;
  }

  /** No child of that name is a struct, unless the cell is null. */
  predicate ColumnTakes(f: Field, k: string, cell: Value)
    requires f.typ.Struct?
  {
    forall j | 0 <= j < |f.typ.children| && f.typ.children[j].name == k && f.typ.children[j].typ.Struct? ::
      Guided.StructValue(cell)
  }

  lemma AcceptedColumn(
    schema: seq<Field>, mapped: seq<Row>, os: Observations, i: nat, p: Path, f: Field, v: Value, k: string)
    requires Inference.Proper(os) && Rows.Enumerates(mapped, os) && AllAccepted(schema, os)
    requires i < |mapped| && p != [] && FieldAtPath(schema, p) == Some(f) && Distinct(f) && IsBlobField(f)
    requires MapField(Coercing(), f, v).Ok? && Holds(mapped[i], p, Mapped(f, v)) && !IsNullish(v)
    requires Mapped(f, v).Record? && k in Mapped(f, v).fields
    ensures HasChild(f, k) && ColumnTakes(f, k, Mapped(f, v).fields[k])
  {
    var w := Mapped(f, v);
    CoercedIsFirstPass(v, f);
    FirstPassCells(v, f, k);
    HeldColumn(mapped[i], p, w, k);
    HeldIsLeaf(mapped[i], p + [k], w.fields[k]);
    var o := LeafSeen(mapped, os, i, p + [k], w.fields[k]);
    assert Guided.Accepted(schema, o);
    ColumnAtPath(schema, p, f, k);
    forall j | 0 <= j < |f.typ.children| && f.typ.children[j].name == k && f.typ.children[j].typ.Struct?
      ensures Guided.StructValue(w.fields[k])
    {
      ChildAtPath(schema, p, f, j);
    }
  }

  lemma FilledIsNoStruct(f: Field, v: Value, j: nat)
    requires IsBlobField(f) && f.typ.Struct? && j < |f.typ.children| && !IsNullish(v) && MapField(Coercing(), f, v).Ok?
    requires Mapped(f, v).Record? && f.typ.children[j].name in Mapped(f, v).fields && f.typ.children[j].typ.Struct?
    requires ColumnTakes(f, f.typ.children[j].name, Mapped(f, v).fields[f.typ.children[j].name])
    ensures !Fills(v, f.typ.children[j].name)
  {
    CellIsColumn(f, v, f.typ.children[j].name);
  }

  /** The columns of the mapped value are those of the blob, and a cell that is not null is no struct. */
  lemma CellIsColumn(f: Field, v: Value, k: string)
    requires IsBlobField(f) && !IsNullish(v) && MapField(Coercing(), f, v).Ok?
    requires Mapped(f, v).Record? && k in Mapped(f, v).fields
    ensures Guided.StructValue(Mapped(f, v).fields[k]) <==> !Fills(v, k)
    ensures Supported(Mapped(f, v).fields[k])
  {
    CoercedIsFirstPass(v, f);
    CoercedColumns(v, f);
    MappedCell(v, f, k);
    ColumnKinds(Coerce(v, f).value.value, k);
  }

  lemma {:induction false} AcceptedCarries(
    schema: seq<Field>, mapped: seq<Row>, os: Observations, i: nat, p: Path, f: Field, v: Value)
    requires Inference.Proper(os) && Rows.Enumerates(mapped, os) && AllAccepted(schema, os)
    requires i < |mapped| && p != [] && FieldAtPath(schema, p) == Some(f) && Distinct(f)
    requires MapField(Coercing(), f, v).Ok? && Holds(mapped[i], p, Mapped(f, v)) && Survive(f, v)
    ensures Carries(f, v)
    decreases f
  {
    if IsBlobField(f) {
      if !IsNullish(v) { AcceptedIsTaken(schema, mapped, os, i, p, f, v); }
    } else if f.typ.Struct? && IsObject(v) {
      HeldObject(schema, mapped, os, i, p, f, v);
      forall a | 0 <= a < |f.typ.children| && f.typ.children[a].name in Properties(v)
        ensures Carries(f.typ.children[a], Properties(v)[f.typ.children[a].name])
      {
        ChildHeld(mapped, i, p, f, v, a);
        ChildAtPath(schema, p, f, a);
        AcceptedCarries(schema, mapped, os, i, p + [f.typ.children[a].name], f.typ.children[a],
                        Properties(v)[f.typ.children[a].name]);
      }
    }
  }

  // ---------------------------------------------------------------- carried blobs are accepted

  /** A path leads to or into a blob field. */
  predicate UnderBlob(fields: seq<Field>, q: Path)
    decreases |q|, 0
  {
    q != [] && Find(fields, q[0]).Some? && UnderBlobField(Find(fields, q[0]).value, q[1..])
  }

  predicate UnderBlobField(f: Field, rest: Path)
    decreases |rest|, 1
  {
    IsBlobField(f) || (rest != [] && f.typ.Struct? && UnderBlob(f.typ.children, rest))
  }

  /** A leaf of a value, at the rest of a path. */
  ghost predicate LeafUnder(w: Value, rest: Path, x: Value) {
    if Rows.IsRecord(w) then Rows.IsLeaf(w.fields, rest, x) else rest == [] && x == w && !w.Undefined?
  }

  lemma {:induction false} CarriedLeafAccepted(
    schema: seq<Field>, p: Path, f: Field, v: Value, rest: Path, o: Inference.Obs)
    requires p != [] && FieldAtPath(schema, p) == Some(f) && Distinct(f) && o.path == p + rest
    requires MapField(Coercing(), f, v).Ok? && Carries(f, v) && LeafUnder(Mapped(f, v), rest, o.value)
    requires UnderBlobField(f, rest)
    ensures Guided.Accepted(schema, o)
    decreases f
  {
    var w := Mapped(f, v);
    if IsBlobField(f) {
      BlobLeafAccepted(schema, p, f, v, rest, o);
    } else {
      var name := rest[0];
      var c := Find(f.typ.children, name).value;
      var a :| 0 <= a < |f.typ.children| && f.typ.children[a] == c;
      StructLeaf(f, v, rest, o.value, a);
      ChildAtPath(schema, p, f, a);
      assert p + [name] + rest[1..] == p + rest;
      assert Distinct(c);
      CarriedLeafAccepted(schema, p + [name], c, Properties(v)[name], rest[1..], o);
    }
  }

  /** A leaf below a mapped struct is a leaf of a mapped property. */
  lemma StructLeaf(f: Field, v: Value, rest: Path, x: Value, a: nat)
    requires !IsBlobField(f) && f.typ.Struct? && Distinct(f) && MapField(Coercing(), f, v).Ok?
    requires rest != [] && LeafUnder(Mapped(f, v), rest, x)
    requires a < |f.typ.children| && f.typ.children[a].name == rest[0]
    ensures IsObject(v) && rest[0] in Properties(v)
    ensures MapField(Coercing(), f.typ.children[a], Properties(v)[rest[0]]).Ok?
    ensures LeafUnder(Mapped(f.typ.children[a], Properties(v)[rest[0]]), rest[1..], x)
  {
    MappedObject(Coercing(), f, v);
    if rest[0] in MapFields(Coercing(), f.typ.children, Properties(v)).value {
      MappedNames(Coercing(), f.typ.children, Properties(v), rest[0]);
    }
    MappedChild(Coercing(), f.typ.children, Properties(v), a);
  }

  lemma BlobLeafAccepted(schema: seq<Field>, p: Path, f: Field, v: Value, rest: Path, o: Inference.Obs)
    requires p != [] && FieldAtPath(schema, p) == Some(f) && Distinct(f) && o.path == p + rest && IsBlobField(f)
    requires MapField(Coercing(), f, v).Ok? && Carries(f, v) && LeafUnder(Mapped(f, v), rest, o.value)
    ensures Guided.Accepted(schema, o)
  {
    var w := Mapped(f, v);
    CoercedIsFirstPass(v, f);
    CoercedColumns(v, f);
    if IsNullish(v) {
      assert p + rest == p;
    } else {
      TakenIsRecord(f, v);
      var k := rest[0];
      FirstPassCells(v, f, k);
      assert rest == [k];
      CellIsColumn(f, v, k);
      TakenColumn(f, v, k);
      ColumnAtPath(schema, p, f, k);
    }
  }

  lemma TakenIsRecord(f: Field, v: Value)
    requires IsBlobField(f) && !IsNullish(v) && MapField(Coercing(), f, v).Ok? && Takes(v, f)
    ensures Rows.IsRecord(Mapped(f, v))
  {
    CoercedIsFirstPass(v, f);
    CoercedColumns(v, f);
    var b := Coerce(v, f).value.value;
    if |f.typ.children| == 2 {
      assert "data" in Mapped(f, v).fields;
    } else {
      WidenedColumns(b, f);
      assert SourceOf(v) in Mapped(f, v).fields;
    }
  }

  /** A column of a value that the storage takes is a child that takes the cell. */
  lemma TakenColumn(f: Field, v: Value, k: string)
    requires IsBlobField(f) && Distinct(f) && !IsNullish(v) && MapField(Coercing(), f, v).Ok? && Takes(v, f)
    requires Mapped(f, v).Record? && k in Mapped(f, v).fields
    ensures HasChild(f, k)
    ensures forall c | c in f.typ.children && c.name == k && c.typ.Struct? :: !Fills(v, k)
  {
    CoercedIsFirstPass(v, f);
    CoercedColumns(v, f);
    var b := Coerce(v, f).value.value;
    if |f.typ.children| == 2 {
      assert f.typ.children[0].name != f.typ.children[1].name;
    } else {
      WidenedColumns(b, f);
    }
  }

  // ---------------------------------------------------------------- the whole of it

  /** Inference accepts what is not at or inside a blob. */
  ghost predicate OthersAccepted(schema: seq<Field>, os: Observations)
    requires Inference.Proper(os)
  {
    forall o | o in os && !UnderBlob(schema, o.path) :: Guided.Accepted(schema, o)
  }

  /** The place of a column in a row. */
  function PlaceOf(row: Row, name: string): Place {
    Step(At(Record(row)), name)
  }

  ghost predicate AllListsFit(mapped: seq<Row>, inferred: seq<Field>) {
    forall g, i | g in inferred && 0 <= i < |mapped| :: ListsFit(g, PlaceOf(mapped[i], g.name))
  }

  ghost predicate RowsSurvive(schema: seq<Field>, rows: seq<Row>) {
    forall i, j | 0 <= i < |rows| && 0 <= j < |schema| && schema[j].name in rows[i] ::
      Survive(schema[j], rows[i][schema[j].name])
  }

  ghost predicate RowsCarried(schema: seq<Field>, rows: seq<Row>) {
    forall i | 0 <= i < |rows| :: RowCarries(schema, rows[i])
  }

  /** A column is made exactly when every row converts. */
  lemma ColumnIsMade(mapped: seq<Row>, g: Field)
    ensures Transpose(AsValues(mapped), g, []).Ok? <==>
            forall i | 0 <= i < |mapped| :: Convertible(g, PlaceOf(mapped[i], g.name))
    ensures Transpose(AsValues(mapped), g, []).Ok? ==>
              var c := Transpose(AsValues(mapped), g, []).value;
              && Fits(c, g, |mapped|)
              && forall i | 0 <= i < |mapped| :: Assemble(c, g, |mapped|, i) == Canon(g, PlaceOf(mapped[i], g.name))
  {
    var data := AsValues(mapped);
    ShredAssembleRoundTrip(data, g, []);
    forall i | 0 <= i < |mapped| ensures Locate(At(data[i]), [] + [g.name]) == PlaceOf(mapped[i], g.name) {
      assert [] + [g.name] == [g.name] && [g.name][1..] == [];
      assert Locate(At(data[i]), [g.name]) == Locate(Step(At(data[i]), g.name), []);
    }
  }

  /** One row under one inferred field. */
  lemma RowConverts(
    schema: seq<Field>, rows: seq<Row>, mapped: seq<Row>, os: Observations, i: nat, j: nat)
    requires Context(schema, rows, mapped, os) && AllAccepted(schema, os) && i < |rows| && j < |schema|
    ensures
      var g, name := Kept(schema[j], [schema[j].name], os), schema[j].name;
      Convertible(g, PlaceOf(mapped[i], name)) <==>
      ListsFit(g, PlaceOf(mapped[i], name)) && (name in rows[i] ==> Survive(schema[j], rows[i][name]))
  {
    var f, name := schema[j], schema[j].name;
    var g := Kept(f, [name], os);
    if name in rows[i] {
      PresentConverts(schema, rows, mapped, os, i, j);
    } else {
      if name in MapFields(Coercing(), schema, rows[i]).value { MappedNames(Coercing(), schema, rows[i], name); }
      NothingConverts(g, PlaceOf(mapped[i], name));
    }
  }

  lemma PresentConverts(
    schema: seq<Field>, rows: seq<Row>, mapped: seq<Row>, os: Observations, i: nat, j: nat)
    requires Context(schema, rows, mapped, os) && AllAccepted(schema, os) && i < |rows| && j < |schema|
    requires schema[j].name in rows[i]
    ensures
      var g, name := Kept(schema[j], [schema[j].name], os), schema[j].name;
      Convertible(g, PlaceOf(mapped[i], name)) <==>
      ListsFit(g, PlaceOf(mapped[i], name)) && Survive(schema[j], rows[i][name])
  {
    TopOffers(schema, rows, mapped, os, i, j);
    assert Distinct(schema[j]);
    HeldAtTop(schema, rows, mapped, i, j);
    ConvertsExactly(schema[j], Kept(schema[j], [schema[j].name], os), rows[i][schema[j].name]);
  }

  lemma TopOffers(schema: seq<Field>, rows: seq<Row>, mapped: seq<Row>, os: Observations, i: nat, j: nat)
    requires Context(schema, rows, mapped, os) && AllAccepted(schema, os) && i < |rows| && j < |schema|
    requires schema[j].name in rows[i]
    ensures Offers(schema[j], Kept(schema[j], [schema[j].name], os), rows[i][schema[j].name])
  {
    HeldAtTop(schema, rows, mapped, i, j);
    ImagesAtTop(schema, rows, mapped, j);
    FindUnique(schema, j);
    assert Distinct(schema[j]);
    InferenceOffers(schema, mapped, os, i, [schema[j].name], schema[j], rows[i][schema[j].name]);
  }

  /** With inference done, the columns are made exactly when lists are lists and blobs survive. */
  lemma ColumnsAreMade(schema: seq<Field>, rows: seq<Row>, mapped: seq<Row>, os: Observations)
    requires Context(schema, rows, mapped, os) && AllAccepted(schema, os)
    ensures
      var inferred := Guided.Restrict(schema, [], os);
      (forall g | g in inferred :: Transpose(AsValues(mapped), g, []).Ok?) <==>
      AllListsFit(mapped, inferred) && RowsSurvive(schema, rows)
  {
    var inferred := Guided.Restrict(schema, [], os);
    RestrictIsKept(schema, [], os);
    forall g | g in inferred { ColumnIsMade(mapped, g); }
    if forall g | g in inferred :: Transpose(AsValues(mapped), g, []).Ok? {
      MadeMeansSurvived(schema, rows, mapped, os);
    }
    if AllListsFit(mapped, inferred) && RowsSurvive(schema, rows) {
      forall g, i | g in inferred && 0 <= i < |mapped| ensures Convertible(g, PlaceOf(mapped[i], g.name)) {
        var j := KeptIndex(schema, os, g);
        RowConverts(schema, rows, mapped, os, i, j);
      }
    }
  }

  /** A kept field comes from a field of the schema. */
  lemma KeptIndex(schema: seq<Field>, os: Observations, g: Field) returns (j: nat)
    requires DistinctFields(schema) && g in Guided.Restrict(schema, [], os)
    ensures j < |schema| && g == Kept(schema[j], [schema[j].name], os) && g.name == schema[j].name
    ensures Seen(os, [schema[j].name])
  {
    RestrictIsKept(schema, [], os);
    assert IsKept(schema, [], os, g);
    j :| 0 <= j < |schema| && Seen(os, [] + [schema[j].name]) && g == Kept(schema[j], [] + [schema[j].name], os);
    assert [] + [schema[j].name] == [schema[j].name];
  }

  lemma MadeMeansSurvived(schema: seq<Field>, rows: seq<Row>, mapped: seq<Row>, os: Observations)
    requires Context(schema, rows, mapped, os) && AllAccepted(schema, os)
    requires forall g | g in Guided.Restrict(schema, [], os) :: Transpose(AsValues(mapped), g, []).Ok?
    ensures AllListsFit(mapped, Guided.Restrict(schema, [], os)) && RowsSurvive(schema, rows)
  {
    var inferred := Guided.Restrict(schema, [], os);
    forall g, i | g in inferred && 0 <= i < |mapped| ensures ListsFit(g, PlaceOf(mapped[i], g.name)) {
      var j := KeptIndex(schema, os, g);
      ColumnIsMade(mapped, g);
      RowConverts(schema, rows, mapped, os, i, j);
    }
    forall i, j | 0 <= i < |rows| && 0 <= j < |schema| && schema[j].name in rows[i]
      ensures Survive(schema[j], rows[i][schema[j].name])
    {
      if Seen(os, [schema[j].name]) {
        var g := KeptInRestrict(schema, os, j);
        ColumnIsMade(mapped, g);
        RowConverts(schema, rows, mapped, os, i, j);
      } else {
        HeldAtTop(schema, rows, mapped, i, j);
        assert Distinct(schema[j]);
        UnseenIsIdle(mapped, os, i, [schema[j].name], schema[j], rows[i][schema[j].name]);
        IdleSurvives(schema[j], rows[i][schema[j].name]);
      }
    }
  }

  lemma KeptInRestrict(schema: seq<Field>, os: Observations, j: nat) returns (g: Field)
    requires DistinctFields(schema) && j < |schema| && Seen(os, [schema[j].name])
    ensures g == Kept(schema[j], [schema[j].name], os) && g in Guided.Restrict(schema, [], os) &&
            g.name == schema[j].name
  {
    g := Kept(schema[j], [schema[j].name], os);
    assert [] + [schema[j].name] == [schema[j].name];
    RestrictIsKept(schema, [], os);
    assert IsKept(schema, [], os, g);
  }

  /** Carried blobs are no obstacle to inference. */
  lemma CarriedIsAccepted(schema: seq<Field>, rows: seq<Row>, mapped: seq<Row>, os: Observations)
    requires Context(schema, rows, mapped, os) && RowsCarried(schema, rows) && OthersAccepted(schema, os)
    ensures AllAccepted(schema, os)
  {
    forall o | o in os && UnderBlob(schema, o.path) ensures Guided.Accepted(schema, o) {
      assert Rows.FromRows(mapped, o);
      var row :| row in mapped && Rows.IsLeaf(row, o.path, o.value);
      var i :| 0 <= i < |mapped| && mapped[i] == row;
      BlobObservationAccepted(schema, rows, mapped, i, o);
    }
  }

  lemma BlobObservationAccepted(schema: seq<Field>, rows: seq<Row>, mapped: seq<Row>, i: nat, o: Inference.Obs)
    requires DistinctFields(schema) && MapAll(schema, rows) == Ok(mapped) && i < |rows| && RowCarries(schema, rows[i])
    requires o.path != [] && UnderBlob(schema, o.path) && Rows.IsLeaf(mapped[i], o.path, o.value)
    ensures Guided.Accepted(schema, o)
  {
    var f := Find(schema, o.path[0]).value;
    var j :| 0 <= j < |schema| && schema[j] == f;
    if f.name in MapFields(Coercing(), schema, rows[i]).value { MappedNames(Coercing(), schema, rows[i], f.name); }
    HeldAtTop(schema, rows, mapped, i, j);
    assert Carries(schema[j], rows[i][schema[j].name]) && Distinct(schema[j]);
    assert [f.name] + o.path[1..] == o.path;
    CarriedLeafAccepted(schema, [f.name], f, rows[i][f.name], o.path[1..], o);
  }

  /**
   * After the mapping, everything succeeds if and only if every blob value is carried and what is
   * not a blob is in order: inference accepts it, records come first, no blob is in a fixed-size
   * list, and lists are lists.
   */
  lemma PipelineSucceeds(schema: seq<Field>, rows: seq<Row>, mapped: seq<Row>, os: Observations)
    requires Context(schema, rows, mapped, os)
    ensures DistinctNames(schema)
    ensures Builds(schema, mapped, os) <==>
            && RowsCarried(schema, rows)
            && OthersAccepted(schema, os) && Guided.RecordsComeFirst(os)
            && (forall g | g in Guided.Restrict(schema, [], os) :: ValidBlobField(g))
            && AllListsFit(mapped, Guided.Restrict(schema, [], os))
  {
    DistinctAtEveryDepth(schema);
    Guided.InferMeetsSpecification(schema, os);
    if RowsCarried(schema, rows) {
      if OthersAccepted(schema, os) { CarriedIsAccepted(schema, rows, mapped, os); }
      CarriedRowsSurvive(schema, rows);
    }
    if AllAccepted(schema, os) {
      ColumnsAreMade(schema, rows, mapped, os);
      if RowsSurvive(schema, rows) { AcceptedRowsCarried(schema, rows, mapped, os); }
    }
  }

  lemma CarriedRowsSurvive(schema: seq<Field>, rows: seq<Row>)
    requires RowsCarried(schema, rows)
    ensures RowsSurvive(schema, rows)
  {
    forall i, j | 0 <= i < |rows| && 0 <= j < |schema| && schema[j].name in rows[i]
      ensures Survive(schema[j], rows[i][schema[j].name])
    {
      assert RowCarries(schema, rows[i]);
      CarriedSurvives(schema[j], rows[i][schema[j].name]);
    }
  }

  lemma AcceptedRowsCarried(schema: seq<Field>, rows: seq<Row>, mapped: seq<Row>, os: Observations)
    requires Context(schema, rows, mapped, os) && AllAccepted(schema, os) && RowsSurvive(schema, rows)
    ensures RowsCarried(schema, rows)
  {
    forall i, j | 0 <= i < |rows| && 0 <= j < |schema| && schema[j].name in rows[i]
      ensures Carries(schema[j], rows[i][schema[j].name])
    {
      HeldAtTop(schema, rows, mapped, i, j);
      FindUnique(schema, j);
      assert Distinct(schema[j]) && Survive(schema[j], rows[i][schema[j].name]);
      AcceptedCarries(schema, mapped, os, i, [schema[j].name], schema[j], rows[i][schema[j].name]);
    }
  }

  /** What the table has for a field of the schema in a row. */
  ghost function ReadBack(schema: seq<Field>, mapped: seq<Row>, os: Observations, i: nat, name: string): Place
    requires Inference.Proper(os) && DistinctNames(schema) && Builds(schema, mapped, os) && i < |mapped|
  {
    match Find(Guided.Infer(schema, os).value, name)
    case None => Missing
    case Some(g) =>
      ColumnIsMade(mapped, g);
      At(Assemble(Transpose(AsValues(mapped), g, []).value, g, |mapped|, i))
  }

  /** In a finished table every blob position has the columns of the blob that was given for it. */
  lemma PipelineDelivers(
    schema: seq<Field>, rows: seq<Row>, mapped: seq<Row>, os: Observations, i: nat, j: nat)
    requires Context(schema, rows, mapped, os) && DistinctNames(schema) && Builds(schema, mapped, os)
    requires i < |rows| && j < |schema| && schema[j].name in rows[i]
    ensures Delivered(schema[j], rows[i][schema[j].name], ReadBack(schema, mapped, os, i, schema[j].name))
  {
    Guided.InferMeetsSpecification(schema, os);
    if Seen(os, [schema[j].name]) {
      var g := KeptInRestrict(schema, os, j);
      FindInRestrict(schema, os, g);
      ColumnIsMade(mapped, g);
      SeenIsDelivered(schema, rows, mapped, os, i, j);
    } else {
      NotInRestrict(schema, os, j);
      UnseenIsDelivered(schema, rows, mapped, os, i, j);
    }
  }

  /**
   * A finished table has, for a field of a row, every column that its blobs fill if and only if
   * struct storage has the column that holds each of them. Outside lists that is always so.
   */
  lemma NothingIsLostExactly(
    schema: seq<Field>, rows: seq<Row>, mapped: seq<Row>, os: Observations, i: nat, j: nat)
    requires Context(schema, rows, mapped, os) && DistinctNames(schema) && Builds(schema, mapped, os)
    requires i < |rows| && j < |schema| && schema[j].name in rows[i]
    ensures Complete(schema[j], rows[i][schema[j].name], ReadBack(schema, mapped, os, i, schema[j].name)) <==>
            KeepsSource(schema[j], rows[i][schema[j].name])
    ensures !ListOfBlobsIn(schema[j]) ==> KeepsSource(schema[j], rows[i][schema[j].name])
  {
    PipelineDelivers(schema, rows, mapped, os, i, j);
    CompleteExactly(schema[j], rows[i][schema[j].name], ReadBack(schema, mapped, os, i, schema[j].name));
    PipelineSucceeds(schema, rows, mapped, os);
    assert RowCarries(schema, rows[i]);
    if !ListOfBlobsIn(schema[j]) { CarriedKeepsSource(schema[j], rows[i][schema[j].name]); }
  }

  /** A list with blobs in it is reached through structs. */
  predicate ListOfBlobsIn(f: Field)
    decreases f
  {
    if IsBlobField(f) then false
    else if f.typ.Struct? then exists i | 0 <= i < |f.typ.children| :: ListOfBlobsIn(f.typ.children[i])
    else IsBlobList(f)
  }

  lemma {:induction false} CarriedKeepsSource(f: Field, v: Value)
    requires Carries(f, v) && !ListOfBlobsIn(f)
    ensures KeepsSource(f, v)
    decreases f
  {
    if !IsBlobField(f) && f.typ.Struct? && IsObject(v) {
      forall i | 0 <= i < |f.typ.children| && f.typ.children[i].name in Properties(v)
        ensures KeepsSource(f.typ.children[i], Properties(v)[f.typ.children[i].name])
      {
        CarriedKeepsSource(f.typ.children[i], Properties(v)[f.typ.children[i].name]);
      }
    }
  }

  lemma SeenIsDelivered(schema: seq<Field>, rows: seq<Row>, mapped: seq<Row>, os: Observations, i: nat, j: nat)
    requires Context(schema, rows, mapped, os) && AllAccepted(schema, os)
    requires i < |rows| && j < |schema| && schema[j].name in rows[i]
    requires Convertible(Kept(schema[j], [schema[j].name], os), PlaceOf(mapped[i], schema[j].name))
    ensures Delivered(schema[j], rows[i][schema[j].name],
                      At(Canon(Kept(schema[j], [schema[j].name], os), PlaceOf(mapped[i], schema[j].name))))
  {
    HeldAtTop(schema, rows, mapped, i, j);
    assert Distinct(schema[j]);
    TopOffers(schema, rows, mapped, os, i, j);
    assert PlaceOf(mapped[i], schema[j].name) == At(Mapped(schema[j], rows[i][schema[j].name]));
    ConversionDelivers(schema[j], Kept(schema[j], [schema[j].name], os), rows[i][schema[j].name]);
  }

  lemma UnseenIsDelivered(schema: seq<Field>, rows: seq<Row>, mapped: seq<Row>, os: Observations, i: nat, j: nat)
    requires Context(schema, rows, mapped, os) && i < |rows| && j < |schema| && schema[j].name in rows[i]
    requires !Seen(os, [schema[j].name])
    ensures Delivered(schema[j], rows[i][schema[j].name], Missing)
  {
    HeldAtTop(schema, rows, mapped, i, j);
    assert Distinct(schema[j]);
    UnseenIsIdle(mapped, os, i, [schema[j].name], schema[j], rows[i][schema[j].name]);
    IdleDelivered(schema[j], rows[i][schema[j].name]);
  }

  lemma FindInRestrict(schema: seq<Field>, os: Observations, g: Field)
    requires DistinctFields(schema) && g in Guided.Restrict(schema, [], os)
    ensures Find(Guided.Restrict(schema, [], os), g.name) == Some(g)
  {
    RestrictIsKept(schema, [], os);
    var k :| 0 <= k < |Guided.Restrict(schema, [], os)| && Guided.Restrict(schema, [], os)[k] == g;
    FindUnique(Guided.Restrict(schema, [], os), k);
  }

  lemma NotInRestrict(schema: seq<Field>, os: Observations, j: nat)
    requires DistinctFields(schema) && j < |schema| && !Seen(os, [schema[j].name])
    ensures Find(Guided.Restrict(schema, [], os), schema[j].name).None?
  {
    forall g | g in Guided.Restrict(schema, [], os) ensures g.name != schema[j].name {
      var k := KeptIndex(schema, os, g);
    }
  }

  /** The storage that `blob()` declares takes every value. */
  lemma DeclaredStorageTakes(name: string, v: Value)
    ensures IsBlobField(BlobStorage(name)) && Takes(v, BlobStorage(name))
  {
    DeclaredStorageHasAll(name, v);
    var children := BlobStorage(name).typ.children;
    forall i | 0 <= i < |children| ensures !children[i].typ.Struct? {
      assert i == 0 || i == 1 || i == 2 || i == 3;
    }
  }

  // ---------------------------------------------------------------- values that coerce and are lost

  /** A blob field with columns of some names. */
  function StorageOf(name: string, columns: seq<string>): Field {
    Field(name, Struct(BinaryColumns(columns)), true, map[EXTENSION_KEY := BLOB_V2_EXTENSION_NAME])
  }

  function BinaryColumns(names: seq<string>): (fields: seq<Field>)
    ensures |fields| == |names| && forall i | 0 <= i < |names| ::
            fields[i] == Field(names[i], LARGE_BINARY, true, map[])
  {
    seq(|names|, i requires 0 <= i < |names| => Field(names[i], LARGE_BINARY, true, map[]))
  }

  /**
   * Bytes in one row, in a column whose storage does not take them: they pass the first coercion,
   * and no table can be made.
   */
  lemma RefusedAfterCoercion(storage: Field, mapped: seq<Row>, os: Observations)
    requires IsBlobField(storage) && Distinct(storage) && !Takes(Buffer([]), storage)
    requires Context([storage], [map[storage.name := Buffer([])]], mapped, os)
    ensures DistinctNames([storage]) && !Builds([storage], mapped, os)
  {
    var rows := [map[storage.name := Buffer([])]];
    PipelineSucceeds([storage], rows, mapped, os);
    assert !Carries(storage, rows[0][storage.name]);
    assert !RowCarries([storage], rows[0]);
  }

  /** Storage with uri, position and size: the widening drops the bytes and the second coercion refuses the rest. */
  lemma WideningCanLoseTheSource()
    ensures
      var storage := StorageOf("b", ["uri", "position", "size"]);
      && IsBlobField(storage) && MapAll([storage], [map["b" := Buffer([])]]).Ok?
      && forall mapped, os | Context([storage], [map["b" := Buffer([])]], mapped, os) ::
           DistinctNames([storage]) && !Builds([storage], mapped, os)
  {
    var storage := StorageOf("b", ["uri", "position", "size"]);
    assert !HasChild(storage, "data");
    MapsOne(storage);
    forall mapped, os | Context([storage], [map["b" := Buffer([])]], mapped, os)
      ensures DistinctNames([storage]) && !Builds([storage], mapped, os)
    {
      RefusedAfterCoercion(storage, mapped, os);
    }
  }

  /** Storage with uri and size is not widened: inference refuses the data column. */
  lemma TwoColumnsCanLoseTheSource()
    ensures
      var storage := StorageOf("b", ["uri", "size"]);
      && IsBlobField(storage) && MapAll([storage], [map["b" := Buffer([])]]).Ok?
      && forall mapped, os | Context([storage], [map["b" := Buffer([])]], mapped, os) ::
           DistinctNames([storage]) && !Builds([storage], mapped, os)
  {
    var storage := StorageOf("b", ["uri", "size"]);
    assert !HasChild(storage, "data");
    MapsOne(storage);
    forall mapped, os | Context([storage], [map["b" := Buffer([])]], mapped, os)
      ensures DistinctNames([storage]) && !Builds([storage], mapped, os)
    {
      RefusedAfterCoercion(storage, mapped, os);
    }
  }

  /** Bytes pass the first coercion against any blob storage. */
  lemma MapsOne(storage: Field)
    requires IsBlobField(storage)
    ensures MapAll([storage], [map[storage.name := Buffer([])]]).Ok?
  {
    var row := map[storage.name := Buffer([])];
    assert [storage][..0] == [];
    assert MapFields(Coercing(), [storage][..0], row) == Ok(map[]);
    assert MapField(Coercing(), storage, Buffer([])) == Coerced(Buffer([]), storage);
    assert Coerce(Buffer([]), storage).Ok?;
    assert MapFields(Coercing(), [storage], row).Ok?;
  }

  /**
   * Inside a list a value that is accepted is stored without its source exactly when its storage
   * lacks that column; such storage has two columns.
   */
  lemma ListsCanDropTheSource(item: Field, v: Value)
    requires IsBlobField(item) && item.typ.Struct? && Survive(item, v) && !IsNullish(v)
    ensures Coerce(v, item).value.Some?
    ensures SourceOf(v) !in BlobCells(Coerce(v, item).value.value, item.typ.children) <==> !HasChild(item, SourceOf(v))
    ensures !HasChild(item, SourceOf(v)) ==> |item.typ.children| == 2 && !Carries(item, v)
  {
    CoercedColumns(v, item);
    CellAt(Coerce(v, item).value.value, item.typ.children, SourceOf(v));
  }

  /** The only leaf of a row with one list. */
  lemma OnlyTheList(mapped: seq<Row>, os: Observations, name: string, w: Value)
    requires mapped == [map[name := w]] && w.Array? && Rows.Enumerates(mapped, os)
    ensures forall o | o in os :: o.path == [name] && o.value == w
    ensures Inference.Proper(os) && Guided.RecordsComeFirst(os)
  {
    forall o | o in os ensures o.path == [name] && o.value == w {
      assert Rows.FromRows(mapped, o);
      var row :| row in mapped && Rows.IsLeaf(row, o.path, o.value);
      assert o.path == [o.path[0]];
    }
    assert !Inference.SeenBelow(os, [name]);
  }

  /** What becomes of a list of bytes whose item storage has uri and size. */
  lemma MappedBytes(item: Field, mapped: seq<Row>, os: Observations)
    requires item == StorageOf("item", ["uri", "size"])
    requires Context([Field("l", List(item), true, map[])], [map["l" := Array([Buffer([])])]], mapped, os)
    ensures mapped == [map["l" := Array([Record(map["data" := Buffer([]), "uri" := Null])])]]
  {
    var list, rows := Field("l", List(item), true, map[]), [map["l" := Array([Buffer([])])]];
    HeldAtTop([list], rows, mapped, 0, 0);
    MappedList(Coercing(), list, rows[0]["l"]);
    var w := Mapped(list, rows[0]["l"]);
    assert w.items[0] == After(Coerced(Buffer([]), item).value, Buffer([]));
    assert AsRecord(BlobValue(Some(Buffer([])), None, None, None)) == Record(map["data" := Buffer([]), "uri" := Null]);
    assert w == Array([Record(map["data" := Buffer([]), "uri" := Null])]);
    forall name | name in MapFields(Coercing(), [list], rows[0]).value ensures name == "l" {
      MappedNames(Coercing(), [list], rows[0], name);
    }
    assert mapped[0] == map["l" := w];
  }

  lemma BytesListBuilds(item: Field, mapped: seq<Row>, os: Observations)
    requires item == StorageOf("item", ["uri", "size"])
    requires Context([Field("l", List(item), true, map[])], [map["l" := Array([Buffer([])])]], mapped, os)
    ensures DistinctNames([Field("l", List(item), true, map[])]) &&
            Builds([Field("l", List(item), true, map[])], mapped, os)
  {
    var list, rows := Field("l", List(item), true, map[]), [map["l" := Array([Buffer([])])]];
    MappedBytes(item, mapped, os);
    OnlyTheList(mapped, os, "l", mapped[0]["l"]);
    BytesListCarried(item);
    BytesListAccepted(item, mapped[0]["l"], os);
    BytesListFits(item, mapped, os);
    PipelineSucceeds([list], rows, mapped, os);
  }

  lemma BytesListCarried(item: Field)
    requires item == StorageOf("item", ["uri", "size"])
    ensures RowsCarried([Field("l", List(item), true, map[])], [map["l" := Array([Buffer([])])]])
  {
    assert Survive(item, Buffer([]));
    assert Survive(Field("l", List(item), true, map[]), Array([Buffer([])]));
  }

  lemma BytesListAccepted(item: Field, w: Value, os: Observations)
    requires w == Array([Record(map["data" := Buffer([]), "uri" := Null])])
    requires Inference.Proper(os) && forall o | o in os :: o.path == ["l"] && o.value == w
    ensures OthersAccepted([Field("l", List(item), true, map[])], os)
  {
    var record := map["data" := Buffer([]), "uri" := Null];
    assert "data" in record && Supported(Record(record));
    assert Supported(w) && Find([Field("l", List(item), true, map[])], "l").Some?;
  }

  lemma BytesListFits(item: Field, mapped: seq<Row>, os: Observations)
    requires item == StorageOf("item", ["uri", "size"]) && |mapped| == 1 && "l" in mapped[0] && mapped[0]["l"].Array?
    ensures
      var inferred := Guided.Restrict([Field("l", List(item), true, map[])], [], os);
      (forall g | g in inferred :: ValidBlobField(g)) && AllListsFit(mapped, inferred)
  {
    var list := Field("l", List(item), true, map[]);
    assert Distinct(item) && Distinct(list);
    forall g | g in Guided.Restrict([list], [], os) ensures g == list {
      var j := KeptIndex([list], os, g);
    }
    assert ValidBlobField(item) && ValidBlobField(list);
  }

  lemma BytesListObserved(item: Field) returns (mapped: seq<Row>, os: Observations)
    requires item == StorageOf("item", ["uri", "size"])
    ensures Context([Field("l", List(item), true, map[])], [map["l" := Array([Buffer([])])]], mapped, os)
  {
    var list, rows := Field("l", List(item), true, map[]), [map["l" := Array([Buffer([])])]];
    assert Distinct(item) && Distinct(list);
    BytesCoerceInList(item);
    mapped := MapAll([list], rows).value;
    HeldAtTop([list], rows, mapped, 0, 0);
    MappedList(Coercing(), list, rows[0]["l"]);
    var w := mapped[0]["l"];
    os := [Inference.Obs(["l"], w, 0)];
    assert mapped[0].Keys == {"l"} by {
      forall name | name in MapFields(Coercing(), [list], rows[0]).value ensures name == "l" {
        MappedNames(Coercing(), [list], rows[0], name);
      }
    }
    forall o | o in os ensures Rows.FromRows(mapped, o) {
      assert mapped[0] in mapped && Rows.IsLeaf(mapped[0], o.path, o.value);
    }
    forall row, path, v | row in mapped && Rows.IsLeaf(row, path, v) ensures Rows.Observed(os, path, v) {
      assert path == ["l"] && v == w;
      assert os[0] in os;
    }
  }

  lemma BytesCoerceInList(item: Field)
    requires IsBlobField(item)
    ensures MapAll([Field("l", List(item), true, map[])], [map["l" := Array([Buffer([])])]]).Ok?
  {
    var list, row := Field("l", List(item), true, map[]), map["l" := Array([Buffer([])])];
    assert [Buffer([])][..0] == [];
    assert MapItems(Coercing(), item, [Buffer([])][..0]).Ok?;
    assert MapField(Coercing(), item, Buffer([])) == Coerced(Buffer([]), item) && Coerce(Buffer([]), item).Ok?;
    assert MapField(Coercing(), list, row["l"]).Ok?;
    assert MapFields(Coercing(), [list][..0], row).Ok?;
  }

  /** A row with a list of one blob: the table is made, and the bytes are not in it. */
  lemma ListDropsTheBytes() returns (mapped: seq<Row>, os: Observations)
    ensures
      var item := StorageOf("item", ["uri", "size"]);
      var schema := [Field("l", List(item), true, map[])];
      && Context(schema, [map["l" := Array([Buffer([])])]], mapped, os)
      && DistinctNames(schema) && Builds(schema, mapped, os)
      && ReadBack(schema, mapped, os, 0, "l") == At(Array([Record(map["uri" := Null, "size" := Null])]))
  {
    var item := StorageOf("item", ["uri", "size"]);
    mapped, os := BytesListObserved(item);
    BytesListBuilds(item, mapped, os);
    var list, rows := Field("l", List(item), true, map[]), [map["l" := Array([Buffer([])])]];
    PipelineDelivers([list], rows, mapped, os, 0, 0);
    BytesListDelivered(item, ReadBack([list], mapped, os, 0, "l"));
  }

  lemma BytesListDelivered(item: Field, a: Place)
    requires item == StorageOf("item", ["uri", "size"])
    requires Delivered(Field("l", List(item), true, map[]), Array([Buffer([])]), a)
    ensures a == At(Array([Record(map["uri" := Null, "size" := Null])]))
  {
    assert ContainsBlob(item);
    assert Delivered(item, Buffer([]), At(a.value.items[0]));
    assert a.value.items == [a.value.items[0]];
    assert item.typ.children[0].name == "uri" && item.typ.children[1].name == "size";
    var fields := a.value.items[0].fields;
    assert fields.Keys == {"uri", "size"};
    assert fields == map["uri" := Null, "size" := Null];
  }
}
