/**
 * `ensureNestedFieldsExist` fills missing fields with nulls before rows are converted. The
 * theorem is that the conversion cannot tell: filled rows give the same columns.
 */
module NullFilling {
  import opened Values
  import opened ArrowTypes
  import opened Blobs
  import opened Columns

  predicate IsPlainStruct(f: Field) {
    f.typ.Struct? && !IsBlobField(f)
  }

  /** The `in` operator throws on these. */
  predicate IsPrimitive(v: Value) {
    v.Boolean? || v.BigInt? || v.Number? || v.Text?
  }

  /** What is under a name of an object. */
  function Under(v: Value, name: string): Place {
    if name in Properties(v) then At(Properties(v)[name]) else Missing
  }

  /** What a field is filled with. */
  function FillField(f: Field, p: Place): Result<Value>
    decreases f, 1
  {
    match p
    case Missing =>
      if !IsPlainStruct(f) then Ok(Null)
      else AsRow(FillStruct(f.typ.children, Record(map[])))
    case At(v) =>
      if !IsPlainStruct(f) || IsNullish(v) then Ok(v)
      else AsRow(FillStruct(f.typ.children, v))
  }

  function AsRow(r: Result<map<string, Value>>): Result<Value> {
    match r
    case Err => Err
    case Ok(m) => Ok(Record(m))
  }

  /** `ensureStructFieldsExist`; also one row of `ensureNestedFieldsExist`. */
  function FillStruct(fields: seq<Field>, v: Value): Result<map<string, Value>>
    decreases fields, 0
  {
    if fields == [] then Ok(map[])
    else if IsPrimitive(v) then Err
    else
      var last := fields[|fields| - 1];
      match (FillStruct(fields[..|fields| - 1], v), FillField(last, Under(v, last.name)))
      case (Ok(m), Ok(w)) => Ok(m[last.name := w])
      case _ => Err
  }

  /** `ensureStructFieldsExist` as it runs, with its loop over the fields of the struct. */
  method EnsureStructFieldsExist(fields: seq<Field>, v: Value) returns (r: Result<map<string, Value>>)
    ensures r == FillStruct(fields, v)
    decreases fields, 0
  {
    var complete := map[];
    var i := 0;
    while i < |fields|
      invariant 0 <= i <= |fields|
      invariant FillStruct(fields[..i], v) == Ok(complete)
    {
      var f := fields[i];
      assert fields[..i + 1][..i] == fields[..i];
      var w: Result<Value>;
      if IsPrimitive(v) {
        FillFails(fields, i + 1, v);
        return Err;
      }
      if f.name in Properties(v) && (!IsPlainStruct(f) || IsNullish(Properties(v)[f.name])) {
        w := Ok(Properties(v)[f.name]);
      } else if f.name in Properties(v) {
        var below := EnsureStructFieldsExist(f.typ.children, Properties(v)[f.name]);
        w := AsRow(below);
      } else if IsPlainStruct(f) {
        var below := EnsureStructFieldsExist(f.typ.children, Record(map[]));
        w := AsRow(below);
      } else {
        w := Ok(Null);
      }
      assert w == FillField(f, Under(v, f.name));
      if w.Err? {
        FillFails(fields, i + 1, v);
        return Err;
      }
      complete, i := complete[f.name := w.value], i + 1;
    }
    assert fields[..i] == fields;
    return Ok(complete);
  }

  lemma {:induction false} FillFails(fields: seq<Field>, i: nat, v: Value)
    requires i <= |fields| && FillStruct(fields[..i], v).Err?
    ensures FillStruct(fields, v).Err?
    decreases |fields| - i
  {
    if i < |fields| {
      assert fields[..i + 1][..i] == fields[..i];
      FillFails(fields, i + 1, v);
    } else {
      assert fields[..i] == fields;
    }
  }

  /** What filling puts under each name, when names are distinct. */
  lemma {:induction false} FilledAt(fields: seq<Field>, v: Value, k: nat)
    requires k < |fields| && FillStruct(fields, v).Ok?
    requires forall i, j | 0 <= i < j < |fields| :: fields[i].name != fields[j].name
    ensures fields[k].name in FillStruct(fields, v).value
    ensures FillField(fields[k], Under(v, fields[k].name)) == Ok(FillStruct(fields, v).value[fields[k].name])
    decreases |fields|
  {
    if k < |fields| - 1 {
      var front := fields[..|fields| - 1];
      assert front[k] == fields[k];
      FilledAt(front, v, k);
    }
  }

  lemma {:induction false} FilledKeys(fields: seq<Field>, v: Value, name: string)
    requires FillStruct(fields, v).Ok? && name in FillStruct(fields, v).value
    ensures exists k | 0 <= k < |fields| :: fields[k].name == name
    decreases |fields|
  {
    var last := |fields| - 1;
    if fields[last].name != name {
      FilledKeys(fields[..last], v, name);
      var k :| 0 <= k < last && fields[..last][k].name == name;
      assert fields[k].name == name;
    }
  }

  // ---------------------------------------------------------------- what is filled in

  ghost predicate DistinctChildren(f: Field) {
    f.typ.Struct? ==> DistinctNames(f.typ.children)
  }

  /** An object has exactly the properties that fields name. */
  ghost predicate NamedBy(fields: seq<Field>, w: Value) {
    && w.Record?
    && (forall k | 0 <= k < |fields| :: fields[k].name in w.fields)
    && (forall name | name in w.fields :: exists k | 0 <= k < |fields| :: fields[k].name == name)
  }

  /** What stands for a missing field: null, or for a struct an object of nulls at every depth. */
  ghost predicate AllNull(f: Field, w: Value)
    decreases f
  {
    if f.typ.Struct? && !IsBlobField(f) then
      NamedBy(f.typ.children, w) &&
      forall k | 0 <= k < |f.typ.children| :: AllNull(f.typ.children[k], w.fields[f.typ.children[k].name])
    else w == Null
  }

  /** A filled value: what was there, with objects of nulls where something was missing. */
  ghost predicate FilledTo(f: Field, p: Place, w: Value)
    decreases f
  {
    if p.Missing? then AllNull(f, w)
    else if f.typ.Struct? && !IsBlobField(f) && !p.value.Null? && !p.value.Undefined? then
      NamedBy(f.typ.children, w) &&
      forall k | 0 <= k < |f.typ.children| ::
        FilledTo(f.typ.children[k], Under(p.value, f.typ.children[k].name), w.fields[f.typ.children[k].name])
    else w == p.value
  }

  /** Filling leaves what was there and puts nulls where something was missing. */
  lemma {:induction false} FillShape(f: Field, p: Place)
    requires DistinctChildren(f) && FillField(f, p).Ok?
    ensures FilledTo(f, p, FillField(f, p).value)
    decreases f
  {
    if IsPlainStruct(f) && !(p.At? && IsNullish(p.value)) {
      var children, v, w := f.typ.children, if p.At? then p.value else Record(map[]), FillField(f, p).value;
      forall name | name in w.fields ensures exists k | 0 <= k < |children| :: children[k].name == name {
        FilledKeys(children, v, name);
      }
      forall k | 0 <= k < |children|
        ensures children[k].name in w.fields
        ensures FilledTo(children[k], Under(v, children[k].name), w.fields[children[k].name])
      {
        FilledAt(children, v, k);
        FillShape(children[k], Under(v, children[k].name));
      }
    }
  }

  // ---------------------------------------------------------------- what the conversion can tell apart

  /** Two places that the conversion treats alike. */
  ghost predicate Alike(f: Field, p: Place, q: Place)
    decreases f
  {
    if IsBlobStructField(f) then Coerce(ValueOf(p), f) == Coerce(ValueOf(q), f)
    else if IsBlobList(f) then ValueOf(p) == ValueOf(q) || (IsNullish(ValueOf(p)) && IsNullish(ValueOf(q)))
    else if f.typ.Struct? then
      && (ValueOf(p).Null? <==> ValueOf(q).Null?)
      && forall k | 0 <= k < |f.typ.children| ::
           Alike(f.typ.children[k], Step(p, f.typ.children[k].name), Step(q, f.typ.children[k].name))
    else Leaf(ValueOf(p), f.nullable) == Leaf(ValueOf(q), f.nullable)
  }

  ghost predicate AllAlike(f: Field, data: seq<Value>, other: seq<Value>, path: Path) {
    && |data| == |other|
    && forall i | 0 <= i < |data| ::
      Alike(f, Locate(At(data[i]), path + [f.name]), Locate(At(other[i]), path + [f.name]))
  }

  lemma {:induction false} AlikeReflexive(f: Field, p: Place)
    ensures Alike(f, p, p)
    decreases f
  {
    if f.typ.Struct? && !IsBlobStructField(f) {
      forall k | 0 <= k < |f.typ.children| {
        AlikeReflexive(f.typ.children[k], Step(p, f.typ.children[k].name));
      }
    }
  }

  /** Rows that are alike at a path are shredded into the same column. */
  lemma {:induction false} AlikeRowsSameColumn(f: Field, data: seq<Value>, other: seq<Value>, path: Path)
    requires AllAlike(f, data, other, path)
    ensures Transpose(data, f, path) == Transpose(other, f, path)
    decreases f, 1
  {
    var here := path + [f.name];
    var values, others := ValuesAt(data, here), ValuesAt(other, here);
    if IsBlobStructField(f) {
      assert forall i | 0 <= i < |values| :: Coerce(values[i], f) == Coerce(others[i], f);
      if AllCoerce(values, f) {
        assert AllCoerce(others, f);
        assert BlobRows(values, f) == BlobRows(others, f);
      } else {
        var i :| 0 <= i < |values| && !Coerce(values[i], f).Ok?;
        assert !Coerce(others[i], f).Ok?;
      }
    } else if IsBlobList(f) {
      AlikeLists(values, others, f);
    } else if f.typ.Struct? {
      assert StructBits(values) == StructBits(others);
      forall k | 0 <= k < |f.typ.children| ensures AllAlike(f.typ.children[k], data, other, here) {
        forall i | 0 <= i < |data|
          ensures Alike(f.typ.children[k], Locate(At(data[i]), here + [f.typ.children[k].name]),
                        Locate(At(other[i]), here + [f.typ.children[k].name]))
        {
          LocateSnoc(At(data[i]), here, f.typ.children[k].name);
          LocateSnoc(At(other[i]), here, f.typ.children[k].name);
          assert Alike(f, Locate(At(data[i]), here), Locate(At(other[i]), here));
        }
      }
      AlikeChildrenSameColumns(f.typ.children, data, other, here);
    } else {
      assert LeafValues(values, f.nullable) == LeafValues(others, f.nullable);
    }
  }

  lemma {:induction false} AlikeChildrenSameColumns(fields: seq<Field>, data: seq<Value>, other: seq<Value>, path: Path)
    requires forall k | 0 <= k < |fields| :: AllAlike(fields[k], data, other, path)
    ensures TransposeAll(data, fields, path) == TransposeAll(other, fields, path)
    decreases fields, 0
  {
    if fields != [] {
      AlikeRowsSameColumn(fields[0], data, other, path);
      AlikeChildrenSameColumns(fields[1..], data, other, path);
    }
  }

  lemma AlikeLists(lists: seq<Value>, others: seq<Value>, f: Field)
    requires f.typ.List? && |lists| == |others|
    requires forall i | 0 <= i < |lists| :: lists[i] == others[i] || (IsNullish(lists[i]) && IsNullish(others[i]))
    ensures TransposeList(lists, f) == TransposeList(others, f)
  {
    SameFlat(lists, others, |lists|, f.typ.valueField.name);
    assert ListBits(lists) == ListBits(others);
    forall i | 0 <= i < |lists| ensures IsListValue(lists[i]) <==> IsListValue(others[i]) {}
  }

  lemma {:induction false} SameFlat(lists: seq<Value>, others: seq<Value>, k: nat, name: string)
    requires k <= |lists| == |others|
    requires forall i | 0 <= i < |lists| :: lists[i] == others[i] || (IsNullish(lists[i]) && IsNullish(others[i]))
    ensures Total(lists, k) == Total(others, k)
    ensures FlattenTo(lists, k, name) == FlattenTo(others, k, name)
    ensures OffsetsTo(lists, k) == OffsetsTo(others, k)
    decreases k
  {
    if k > 0 {
      SameFlat(lists, others, k - 1, name);
      assert Items(lists[k - 1]) == Items(others[k - 1]);
    }
  }

  // ---------------------------------------------------------------- filling is invisible

  /** A filled place is alike to what was there. */
  lemma {:induction false} FilledIsAlike(f: Field, p: Place)
    requires NullableLeaves(f) && DistinctChildren(f) && FillField(f, p).Ok?
    ensures Alike(f, p, At(FillField(f, p).value))
    decreases f
  {
    var w := FillField(f, p).value;
    if !IsPlainStruct(f) || (p.At? && IsNullish(p.value)) {
      if p.At? { AlikeReflexive(f, p); }
    } else {
      var v := if p.Missing? then Record(map[]) else p.value;
      var children := f.typ.children;
      forall k | 0 <= k < |children|
        ensures Alike(children[k], Step(p, children[k].name), Step(At(w), children[k].name))
      {
        FilledAt(children, v, k);
        assert Step(At(w), children[k].name) == At(w.fields[children[k].name]);
        assert Step(p, children[k].name) == Under(v, children[k].name);
        FilledIsAlike(children[k], Under(v, children[k].name));
      }
    }
  }

  /**
   * Filling missing fields with nulls is invisible: whenever it succeeds, the filled rows give
   * the same column as the rows themselves, validity included.
   */
  lemma {:induction false} FillingIsInvisible(fields: seq<Field>, rows: seq<Value>, filled: seq<Value>, k: nat)
    requires k < |fields| && |rows| == |filled|
    requires DistinctNames(fields) && NullableLeaves(fields[k])
    requires forall i | 0 <= i < |rows| :: rows[i].Record? && AsRow(FillStruct(fields, rows[i])) == Ok(filled[i])
    ensures Transpose(filled, fields[k], []) == Transpose(rows, fields[k], [])
  {
    var f := fields[k];
    assert [] + [f.name] == [f.name] && [f.name][1..] == [];
    forall i | 0 <= i < |rows|
      ensures Alike(f, Locate(At(rows[i]), [] + [f.name]), Locate(At(filled[i]), [] + [f.name]))
    {
      FilledAt(fields, rows[i], k);
      FilledIsAlike(f, Under(rows[i], f.name));
      assert Locate(At(rows[i]), [f.name]) == Under(rows[i], f.name);
      assert Locate(At(filled[i]), [f.name]) == At(filled[i].fields[f.name]);
    }
    AlikeRowsSameColumn(f, rows, filled, []);
  }

  // ---------------------------------------------------------------- filling twice

  lemma {:induction false} FillFieldIdempotent(f: Field, p: Place)
    requires DistinctChildren(f) && FillField(f, p).Ok?
    ensures FillField(f, At(FillField(f, p).value)) == FillField(f, p)
    decreases f, 1
  {
    if IsPlainStruct(f) && !(p.At? && IsNullish(p.value)) {
      FillIdempotent(f.typ.children, if p.Missing? then Record(map[]) else p.value);
    }
  }

  /** Filling a filled row changes nothing. */
  lemma {:induction false} FillIdempotent(fields: seq<Field>, v: Value)
    requires DistinctNames(fields) && FillStruct(fields, v).Ok?
    ensures FillStruct(fields, Record(FillStruct(fields, v).value)) == FillStruct(fields, v)
    decreases fields, 0
  {
    var m := FillStruct(fields, v).value;
    forall k | 0 <= k < |fields|
      ensures fields[k].name in m && FillField(fields[k], At(m[fields[k].name])) == Ok(m[fields[k].name])
    {
      FilledAt(fields, v, k);
      FillFieldIdempotent(fields[k], Under(v, fields[k].name));
    }
    FilledFrom(fields, Record(m), m);
    var m' := FillStruct(fields, Record(m)).value;
    forall name | name in m ensures name in m' {
      FilledKeys(fields, v, name);
      var k :| 0 <= k < |fields| && fields[k].name == name;
      FilledAt(fields, Record(m), k);
    }
    assert m' == m;
  }

  /** A row in which every field fills to itself fills to its own values. */
  lemma {:induction false} FilledFrom(fields: seq<Field>, v: Value, m: map<string, Value>)
    requires v == Record(m)
    requires forall k | 0 <= k < |fields| ::
             fields[k].name in m && FillField(fields[k], At(m[fields[k].name])) == Ok(m[fields[k].name])
    ensures FillStruct(fields, v).Ok?
    ensures forall name | name in FillStruct(fields, v).value ::
            name in m && FillStruct(fields, v).value[name] == m[name]
    decreases |fields|
  {
    if fields != [] {
      var last := |fields| - 1;
      assert forall k | 0 <= k < last :: fields[..last][k] == fields[k];
      FilledFrom(fields[..last], v, m);
      assert Under(v, fields[last].name) == At(m[fields[last].name]);
    }
  }

  /** Filling fails exactly where a struct with fields is given a primitive, at some depth. */
  ghost predicate Fillable(f: Field, p: Place)
    decreases f
  {
    f.typ.Struct? && !IsBlobField(f) && !(p.At? && IsNullish(p.value)) && f.typ.children != [] ==>
      && !(p.At? && (p.value.Boolean? || p.value.BigInt? || p.value.Number? || p.value.Text?))
      && forall k | 0 <= k < |f.typ.children| ::
           Fillable(f.typ.children[k], Under(if p.At? then p.value else Record(map[]), f.typ.children[k].name))
  }

  lemma {:induction false} FillSucceeds(f: Field, p: Place)
    ensures FillField(f, p).Ok? <==> Fillable(f, p)
    decreases f, 1
  {
    if IsPlainStruct(f) && !(p.At? && IsNullish(p.value)) {
      FillStructSucceeds(f.typ.children, if p.At? then p.value else Record(map[]));
    }
  }

  lemma {:induction false} FillStructSucceeds(fields: seq<Field>, v: Value)
    ensures FillStruct(fields, v).Ok? <==>
            (fields == [] || (!IsPrimitive(v) && forall k | 0 <= k < |fields| ::
              Fillable(fields[k], Under(v, fields[k].name))))
    decreases fields, 0
  {
    if fields != [] && !IsPrimitive(v) {
      var last := |fields| - 1;
      FillSucceeds(fields[last], Under(v, fields[last].name));
      FillStructSucceeds(fields[..last], v);
      assert forall k | 0 <= k < last :: fields[..last][k] == fields[k];
    }
  }
}
