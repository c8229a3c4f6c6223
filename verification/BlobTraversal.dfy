/**
 * `mapBlobInputs`: one traversal that shows every blob position of a row to a visitor and puts
 * the visitor's answers in place. Reading blob handles and coercing blob values both use it.
 */
module BlobTraversal {
  import opened Values
  import opened ArrowTypes
  import opened Blobs
  import opened Columns

  // ---------------------------------------------------------------- blob positions

  /** A value where a blob field stands. */
  datatype Position = Position(value: Value, storage: Field)

  /** The blob positions under a field, in order: through structs and lists. */
  function Positions(f: Field, v: Value): seq<Position>
    decreases f, 2
  {
    if IsBlobField(f) then [Position(v, f)]
    else if f.typ.Struct? && IsObject(v) then PositionsIn(f.typ.children, Properties(v))
    else if f.typ.List? && v.Array? then PositionsOf(f.typ.valueField, v.items)
    else []
  }

  function PositionsIn(fields: seq<Field>, props: map<string, Value>): seq<Position>
    decreases fields, 0
  {
    if fields == [] then []
    else
      var last := fields[|fields| - 1];
      PositionsIn(fields[..|fields| - 1], props) +
        (if last.name in props then Positions(last, props[last.name]) else [])
  }

  function PositionsOf(item: Field, items: seq<Value>): seq<Position>
    decreases item, 3, |items|
  {
    if items == [] then []
    else PositionsOf(item, items[..|items| - 1]) + Positions(item, items[|items| - 1])
  }

  /** A field without blobs under it has no blob positions, so the traversal may skip it. */
  lemma {:induction false} NoBlobNoPositions(f: Field, v: Value)
    requires !ContainsBlob(f)
    ensures Positions(f, v) == []
    decreases f, 2
  {
    if f.typ.Struct? && IsObject(v) {
      NoBlobNoPositionsIn(f.typ.children, Properties(v));
    } else if f.typ.List? && v.Array? {
      NoBlobNoPositionsOf(f.typ.valueField, v.items);
    }
  }

  lemma {:induction false} NoBlobNoPositionsIn(fields: seq<Field>, props: map<string, Value>)
    requires forall i | 0 <= i < |fields| :: !ContainsBlob(fields[i])
    ensures PositionsIn(fields, props) == []
    decreases fields, 0
  {
    if fields != [] {
      var last := fields[|fields| - 1];
      NoBlobNoPositionsIn(fields[..|fields| - 1], props);
      if last.name in props { NoBlobNoPositions(last, props[last.name]); }
    }
  }

  lemma {:induction false} NoBlobNoPositionsOf(item: Field, items: seq<Value>)
    requires !ContainsBlob(item)
    ensures PositionsOf(item, items) == []
    decreases item, 3, |items|
  {
    if items != [] {
      NoBlobNoPositionsOf(item, items[..|items| - 1]);
      NoBlobNoPositions(item, items[|items| - 1]);
    }
  }

  /** Sibling names are distinct at every depth, through structs and lists. */
  ghost predicate Distinct(f: Field)
    decreases f, 1
  {
    match f.typ
    case Struct(children) => DistinctFields(children)
    case List(item) => Distinct(item)
    case _ => true
  }

  ghost predicate DistinctFields(fields: seq<Field>)
    decreases fields, 0
  {
    && (forall i, j | 0 <= i < j < |fields| :: fields[i].name != fields[j].name)
    && (forall k | 0 <= k < |fields| :: Distinct(fields[k]))
  }

  lemma {:induction false} DistinctAtEveryDepth(fields: seq<Field>)
    requires DistinctFields(fields)
    ensures DistinctNames(fields)
    decreases fields
  {
    forall i | 0 <= i < |fields| && fields[i].typ.Struct? ensures DistinctNames(fields[i].typ.children) {
      assert Distinct(fields[i]);
      DistinctAtEveryDepth(fields[i].typ.children);
    }
  }

  // ---------------------------------------------------------------- the traversal

  /** What a visitor does with a value: it throws, hands it back as it is, or gives another one. */
  type Visitor = (Value, Field) -> Result<Option<Value>>

  function After(change: Option<Value>, v: Value): Value {
    if change.Some? then change.value else v
  }

  /** `mapBlobField`; `None` if nothing under the field changes. */
  function MapField(visit: Visitor, f: Field, v: Value): Result<Option<Value>>
    decreases f, 2
  {
    if IsBlobField(f) then visit(v, f)
    else if f.typ.Struct? && IsObject(v) then
      match MapFields(visit, f.typ.children, Properties(v))
      case Err => Err
      case Ok(changes) => Ok(if changes == map[] then None else Some(Record(Properties(v) + changes)))
    else if f.typ.List? && v.Array? then
      match MapItems(visit, f.typ.valueField, v.items)
      case Err => Err
      case Ok(changes) => Ok(if NoneChanged(changes) then None else Some(Array(Merged(v.items, changes))))
    else Ok(None)
  }

  /** The properties that `mapBlobFields` replaces. */
  function MapFields(visit: Visitor, fields: seq<Field>, props: map<string, Value>): Result<map<string, Value>>
    decreases fields, 0
  {
    if fields == [] then Ok(map[])
    else
      var last := fields[|fields| - 1];
      match MapFields(visit, fields[..|fields| - 1], props)
      case Err => Err
      case Ok(before) =>
        if !ContainsBlob(last) || last.name !in props then Ok(before)
        else match MapField(visit, last, props[last.name])
          case Err => Err
          case Ok(None) => Ok(before)
          case Ok(Some(w)) => Ok(before[last.name := w])
  }

  /** What becomes of each item of a list. */
  function MapItems(visit: Visitor, item: Field, items: seq<Value>): (r: Result<seq<Option<Value>>>)
    ensures r.Ok? ==> |r.value| == |items|
    decreases item, 3, |items|
  {
    if items == [] then Ok([])
    else match (MapItems(visit, item, items[..|items| - 1]), MapField(visit, item, items[|items| - 1]))
      case (Ok(before), Ok(change)) => Ok(before + [change])
      case _ => Err
  }

  predicate NoneChanged(changes: seq<Option<Value>>) {
    forall i | 0 <= i < |changes| :: changes[i].None?
  }

  function Merged(items: seq<Value>, changes: seq<Option<Value>>): (r: seq<Value>)
    requires |items| == |changes|
    ensures |r| == |items| && forall i | 0 <= i < |items| :: r[i] == After(changes[i], items[i])
  {
    seq(|items|, i requires 0 <= i < |items| => After(changes[i], items[i]))
  }

  /** One record of `mapBlobInputs`. */
  function MapRow(visit: Visitor, fields: seq<Field>, row: Value): Result<Value> {
    if !IsObject(row) then Ok(row)
    else match MapFields(visit, fields, Properties(row))
      case Err => Err
      case Ok(changes) => Ok(if changes == map[] then row else Record(Properties(row) + changes))
  }

  // ---------------------------------------------------------------- what it does

  /** The visitor accepts all of some positions. */
  ghost predicate Accepts(visit: Visitor, ps: seq<Position>) {
    forall p | p in ps :: visit(p.value, p.storage).Ok?
  }

  lemma AcceptsBoth(visit: Visitor, a: seq<Position>, b: seq<Position>)
    ensures Accepts(visit, a + b) <==> Accepts(visit, a) && Accepts(visit, b)
  {
    assert forall p :: p in a + b <==> p in a || p in b;
  }

  /** The traversal throws exactly when the visitor throws at some blob position. */
  lemma {:induction false} MapSucceeds(visit: Visitor, f: Field, v: Value)
    ensures MapField(visit, f, v).Ok? <==> Accepts(visit, Positions(f, v))
    decreases f, 2
  {
    if IsBlobField(f) {
      assert Positions(f, v)[0] == Position(v, f);
    } else if f.typ.Struct? && IsObject(v) {
      MapFieldsSucceeds(visit, f.typ.children, Properties(v));
    } else if f.typ.List? && v.Array? {
      MapItemsSucceeds(visit, f.typ.valueField, v.items);
    }
  }

  lemma {:induction false} MapFieldsSucceeds(visit: Visitor, fields: seq<Field>, props: map<string, Value>)
    ensures MapFields(visit, fields, props).Ok? <==> Accepts(visit, PositionsIn(fields, props))
    decreases fields, 0
  {
    if fields != [] {
      var last := fields[|fields| - 1];
      var here := if last.name in props then Positions(last, props[last.name]) else [];
      MapFieldsSucceeds(visit, fields[..|fields| - 1], props);
      AcceptsBoth(visit, PositionsIn(fields[..|fields| - 1], props), here);
      if last.name in props {
        if ContainsBlob(last) {
          MapSucceeds(visit, last, props[last.name]);
        } else {
          NoBlobNoPositions(last, props[last.name]);
        }
      }
    }
  }

  lemma {:induction false} MapItemsSucceeds(visit: Visitor, item: Field, items: seq<Value>)
    ensures MapItems(visit, item, items).Ok? <==> Accepts(visit, PositionsOf(item, items))
    decreases item, 3, |items|
  {
    if items != [] {
      var front, last := items[..|items| - 1], items[|items| - 1];
      MapItemsSucceeds(visit, item, front);
      MapSucceeds(visit, item, last);
      AcceptsBoth(visit, PositionsOf(item, front), Positions(item, last));
    }
  }

  /** What becomes of one field of a record, when names are distinct. */
  lemma {:induction false} MappedAt(visit: Visitor, fields: seq<Field>, props: map<string, Value>, k: nat)
    requires MapFields(visit, fields, props).Ok? && k < |fields|
    requires forall i, j | 0 <= i < j < |fields| :: fields[i].name != fields[j].name
    ensures
      var name, changes := fields[k].name, MapFields(visit, fields, props).value;
      if name in props && ContainsBlob(fields[k]) then
        && MapField(visit, fields[k], props[name]).Ok?
        && (name in changes <==> MapField(visit, fields[k], props[name]).value.Some?)
        && (name in changes ==> changes[name] == MapField(visit, fields[k], props[name]).value.value)
      else name !in changes
    decreases |fields|
  {
    var last := |fields| - 1;
    var front := fields[..last];
    if k < last {
      assert front[k] == fields[k];
      MappedAt(visit, front, props, k);
    } else if fields[last].name in MapFields(visit, front, props).value {
      MappedNames(visit, front, props, fields[last].name);
    }
  }

  /** Only properties that a field names are replaced. */
  lemma {:induction false} MappedNames(visit: Visitor, fields: seq<Field>, props: map<string, Value>, name: string)
    requires MapFields(visit, fields, props).Ok? && name in MapFields(visit, fields, props).value
    ensures name in props && exists k | 0 <= k < |fields| :: fields[k].name == name && ContainsBlob(fields[k])
    decreases |fields|
  {
    var last := |fields| - 1;
    var front := fields[..last];
    if name in MapFields(visit, front, props).value {
      MappedNames(visit, front, props, name);
      var k :| 0 <= k < |front| && front[k].name == name && ContainsBlob(front[k]);
      assert fields[k].name == name;
    } else {
      assert fields[last].name == name;
    }
  }

  /** One item of a list. */
  lemma {:induction false} MappedItemAt(visit: Visitor, item: Field, items: seq<Value>, j: nat)
    requires MapItems(visit, item, items).Ok? && j < |items|
    ensures MapField(visit, item, items[j]) == Ok(MapItems(visit, item, items).value[j])
    decreases |items|
  {
    if j < |items| - 1 {
      assert items[..|items| - 1][j] == items[j];
      MappedItemAt(visit, item, items[..|items| - 1], j);
    }
  }

  /** The visitor's answers, position by position. */
  function Visited(visit: Visitor, ps: seq<Position>): (r: seq<Position>)
    requires Accepts(visit, ps)
    ensures |r| == |ps|
    ensures forall i | 0 <= i < |ps| ::
              r[i] == Position(After(visit(ps[i].value, ps[i].storage).value, ps[i].value), ps[i].storage)
  {
    seq(|ps|, i requires 0 <= i < |ps| =>
      Position(After(visit(ps[i].value, ps[i].storage).value, ps[i].value), ps[i].storage))
  }

  lemma VisitedBoth(visit: Visitor, a: seq<Position>, b: seq<Position>)
    requires Accepts(visit, a) && Accepts(visit, b)
    ensures Accepts(visit, a + b) && Visited(visit, a + b) == Visited(visit, a) + Visited(visit, b)
  {
    AcceptsBoth(visit, a, b);
  }

  /** The traversal is the pure map of the visitor over the blob positions. */
  lemma {:induction false} MapIsMap(visit: Visitor, f: Field, v: Value)
    requires MapField(visit, f, v).Ok? && Distinct(f)
    ensures Accepts(visit, Positions(f, v))
    ensures Positions(f, After(MapField(visit, f, v).value, v)) == Visited(visit, Positions(f, v))
    decreases f, 2
  {
    MapSucceeds(visit, f, v);
    if IsBlobField(f) {
      assert Positions(f, v) == [Position(v, f)];
    } else if f.typ.Struct? && IsObject(v) {
      MapFieldsIsMap(visit, f.typ.children, Properties(v), |f.typ.children|);
      assert f.typ.children[..|f.typ.children|] == f.typ.children;
      NoChangesNoDifference(Properties(v), MapFields(visit, f.typ.children, Properties(v)).value);
    } else if f.typ.List? && v.Array? {
      MapItemsIsMap(visit, f.typ.valueField, v.items);
      NoneChangedMerges(v.items, MapItems(visit, f.typ.valueField, v.items).value);
    }
  }

  lemma NoChangesNoDifference(props: map<string, Value>, changes: map<string, Value>)
    ensures changes == map[] ==> props + changes == props
  {
  }

  lemma NoneChangedMerges(items: seq<Value>, changes: seq<Option<Value>>)
    requires |items| == |changes|
    ensures NoneChanged(changes) ==> Merged(items, changes) == items
  {
  }

  lemma {:induction false} MapFieldsIsMap(visit: Visitor, fields: seq<Field>, props: map<string, Value>, k: nat)
    requires MapFields(visit, fields, props).Ok? && k <= |fields| && DistinctFields(fields)
    ensures Accepts(visit, PositionsIn(fields[..k], props))
    ensures PositionsIn(fields[..k], props + MapFields(visit, fields, props).value) ==
            Visited(visit, PositionsIn(fields[..k], props))
    decreases fields, 1, k
  {
    if k > 0 {
      var f, after := fields[k - 1], props + MapFields(visit, fields, props).value;
      MapFieldsIsMap(visit, fields, props, k - 1);
      MappedAt(visit, fields, props, k - 1);
      assert fields[..k][..k - 1] == fields[..k - 1] && fields[..k][k - 1] == f;
      var here := if f.name in props then Positions(f, props[f.name]) else [];
      assert f.name in after <==> f.name in props;
      if f.name in props && ContainsBlob(f) {
        MapIsMap(visit, f, props[f.name]);
      } else if f.name in props {
        NoBlobNoPositions(f, props[f.name]);
      }
      VisitedBoth(visit, PositionsIn(fields[..k - 1], props), here);
    } else {
      assert fields[..0] == [];
    }
  }

  lemma {:induction false} MapItemsIsMap(visit: Visitor, item: Field, items: seq<Value>)
    requires MapItems(visit, item, items).Ok? && Distinct(item)
    ensures Accepts(visit, PositionsOf(item, items))
    ensures PositionsOf(item, Merged(items, MapItems(visit, item, items).value)) ==
            Visited(visit, PositionsOf(item, items))
    decreases item, 3, |items|
  {
    if items != [] {
      var front, last := items[..|items| - 1], items[|items| - 1];
      MapItemsIsMap(visit, item, front);
      MapIsMap(visit, item, last);
      VisitedBoth(visit, PositionsOf(item, front), Positions(item, last));
      var r := Merged(items, MapItems(visit, item, items).value);
      assert r[..|r| - 1] == Merged(front, MapItems(visit, item, front).value);
    }
  }

  // ---------------------------------------------------------------- everything else stays

  /** Two values that differ at most at blob positions. */
  ghost predicate SameElsewhere(f: Field, v: Value, w: Value)
    decreases f, 1
  {
    if IsBlobField(f) then true
    else if f.typ.Struct? && IsObject(v) then
      IsObject(w) && SameFieldsElsewhere(f.typ.children, Properties(v), Properties(w))
    else if f.typ.List? && v.Array? then
      w.Array? && |v.items| == |w.items| &&
      forall i | 0 <= i < |v.items| :: SameElsewhere(f.typ.valueField, v.items[i], w.items[i])
    else v == w
  }

  ghost predicate SameFieldsElsewhere(fields: seq<Field>, props: map<string, Value>, after: map<string, Value>)
    decreases fields, 0
  {
    && props.Keys == after.Keys
    && (forall k | 0 <= k < |fields| && fields[k].name in props ::
          SameElsewhere(fields[k], props[fields[k].name], after[fields[k].name]))
    && (forall name | name in props && Unnamed(fields, name) :: props[name] == after[name])
  }

  predicate Unnamed(fields: seq<Field>, name: string) {
    forall k | 0 <= k < |fields| :: fields[k].name != name
  }

  lemma {:induction false} SameAsItself(f: Field, v: Value)
    ensures SameElsewhere(f, v, v)
    decreases f
  {
    if IsBlobField(f) {
    } else if f.typ.Struct? && IsObject(v) {
      forall k | 0 <= k < |f.typ.children| && f.typ.children[k].name in Properties(v) {
        SameAsItself(f.typ.children[k], Properties(v)[f.typ.children[k].name]);
      }
    } else if f.typ.List? && v.Array? {
      forall i | 0 <= i < |v.items| { SameAsItself(f.typ.valueField, v.items[i]); }
    }
  }

  /** Away from the blob positions the traversal changes nothing. */
  lemma {:induction false} MapKeepsTheRest(visit: Visitor, f: Field, v: Value)
    requires MapField(visit, f, v).Ok? && Distinct(f)
    ensures SameElsewhere(f, v, After(MapField(visit, f, v).value, v))
    decreases f, 2
  {
    if MapField(visit, f, v).value.None? {
      SameAsItself(f, v);
    } else if IsBlobField(f) {
    } else if f.typ.Struct? && IsObject(v) {
      MapFieldsKeepsTheRest(visit, f.typ.children, Properties(v));
    } else {
      MapItemsKeepsTheRest(visit, f.typ.valueField, v.items);
    }
  }

  lemma {:induction false} MapFieldsKeepsTheRest(visit: Visitor, fields: seq<Field>, props: map<string, Value>)
    requires MapFields(visit, fields, props).Ok? && DistinctFields(fields)
    ensures SameFieldsElsewhere(fields, props, props + MapFields(visit, fields, props).value)
    decreases fields, 1
  {
    var changes := MapFields(visit, fields, props).value;
    var after := props + changes;
    forall name | name in changes ensures name in props && !Unnamed(fields, name) {
      MappedNames(visit, fields, props, name);
    }
    forall k | 0 <= k < |fields| && fields[k].name in props
      ensures SameElsewhere(fields[k], props[fields[k].name], after[fields[k].name])
    {
      MappedAt(visit, fields, props, k);
      if fields[k].name in changes {
        MapKeepsTheRest(visit, fields[k], props[fields[k].name]);
      } else {
        SameAsItself(fields[k], props[fields[k].name]);
      }
    }
  }

  lemma {:induction false} MapItemsKeepsTheRest(visit: Visitor, item: Field, items: seq<Value>)
    requires MapItems(visit, item, items).Ok? && Distinct(item)
    ensures forall i | 0 <= i < |items| ::
              SameElsewhere(item, items[i], Merged(items, MapItems(visit, item, items).value)[i])
    decreases item, 3
  {
    forall i | 0 <= i < |items|
      ensures SameElsewhere(item, items[i], Merged(items, MapItems(visit, item, items).value)[i])
    {
      MappedItemAt(visit, item, items, i);
      MapKeepsTheRest(visit, item, items[i]);
    }
  }

  // ---------------------------------------------------------------- nothing to do

  /** The visitor hands all of some positions back. */
  ghost predicate HandsBack(visit: Visitor, ps: seq<Position>) {
    forall p | p in ps :: visit(p.value, p.storage) == Ok(None)
  }

  /** A traversal in which the visitor changes nothing changes nothing. */
  lemma {:induction false} NothingToDo(visit: Visitor, f: Field, v: Value)
    requires HandsBack(visit, Positions(f, v))
    ensures MapField(visit, f, v) == Ok(None)
    decreases f, 2
  {
    if IsBlobField(f) {
      assert Positions(f, v)[0] == Position(v, f);
    } else if f.typ.Struct? && IsObject(v) {
      NothingToDoIn(visit, f.typ.children, Properties(v));
    } else if f.typ.List? && v.Array? {
      NothingToDoOf(visit, f.typ.valueField, v.items);
    }
  }

  lemma {:induction false} NothingToDoIn(visit: Visitor, fields: seq<Field>, props: map<string, Value>)
    requires HandsBack(visit, PositionsIn(fields, props))
    ensures MapFields(visit, fields, props) == Ok(map[])
    decreases fields, 0
  {
    if fields != [] {
      var last := fields[|fields| - 1];
      var before := PositionsIn(fields[..|fields| - 1], props);
      assert forall p | p in before :: p in PositionsIn(fields, props);
      NothingToDoIn(visit, fields[..|fields| - 1], props);
      if last.name in props {
        assert forall p | p in Positions(last, props[last.name]) :: p in PositionsIn(fields, props);
        NothingToDo(visit, last, props[last.name]);
      }
    }
  }

  lemma {:induction false} NothingToDoOf(visit: Visitor, item: Field, items: seq<Value>)
    requires HandsBack(visit, PositionsOf(item, items))
    ensures MapItems(visit, item, items).Ok? && NoneChanged(MapItems(visit, item, items).value)
    decreases item, 3, |items|
  {
    if items != [] {
      var front, last := items[..|items| - 1], items[|items| - 1];
      assert forall p | p in PositionsOf(item, front) :: p in PositionsOf(item, items);
      assert forall p | p in Positions(item, last) :: p in PositionsOf(item, items);
      NothingToDoOf(visit, item, front);
      NothingToDo(visit, item, last);
    }
  }
}
