/**
 * Blob values through the conversion: mapped by the first coercion, then shredded against a
 * field that may have lost columns, where they are coerced again. Says exactly when the second
 * half accepts what the first half made, and what is read back then.
 */
module BlobConversion {
  import opened Values
  import opened ArrowTypes
  import opened Blobs
  import opened Columns
  import opened BlobTraversal

  // ---------------------------------------------------------------- the first pass

  /** The visitor of `makeArrowTable`: null and undefined are handed back. */
  function Coercing(): Visitor {
    (v: Value, storage: Field) => Coerced(v, storage)
  }

  function Coerced(v: Value, storage: Field): Result<Option<Value>> {
    match FirstPass(v, storage)
    case Err => Err
    case Ok(w) => Ok(if IsNullish(v) then None else Some(w))
  }

  lemma CoercedIsFirstPass(v: Value, storage: Field)
    requires Coerced(v, storage).Ok?
    ensures FirstPass(v, storage) == Ok(After(Coerced(v, storage).value, v)) && Coerce(v, storage).Ok?
  {
    CoercedColumns(v, storage);
  }

  // ---------------------------------------------------------------- the condition

  /** Every blob value under a field coerces, and its widened form survives. */
  predicate Survive(f: Field, v: Value)
    decreases f
  {
    if IsBlobField(f) then Coerce(v, f).Ok? && (IsNullish(v) || Survives(v, f))
    else if f.typ.Struct? && IsObject(v) then
      forall i | 0 <= i < |f.typ.children| && f.typ.children[i].name in Properties(v) ::
        Survive(f.typ.children[i], Properties(v)[f.typ.children[i].name])
    else if f.typ.List? && v.Array? then forall j | 0 <= j < |v.items| :: Survive(f.typ.valueField, v.items[j])
    else true
  }

  /** Nothing is observed under a field: blobs are null or undefined, and there are no lists. */
  predicate Idle(f: Field, v: Value)
    decreases f
  {
    if IsBlobField(f) then IsNullish(v)
    else if f.typ.Struct? && IsObject(v) then
      forall i | 0 <= i < |f.typ.children| && f.typ.children[i].name in Properties(v) ::
        Idle(f.typ.children[i], Properties(v)[f.typ.children[i].name])
    else f.typ.List? ==> !v.Array?
  }

  lemma {:induction false} IdleSurvives(f: Field, v: Value)
    requires Idle(f, v)
    ensures Survive(f, v)
    decreases f
  {
    if !IsBlobField(f) && f.typ.Struct? && IsObject(v) {
      forall i | 0 <= i < |f.typ.children| && f.typ.children[i].name in Properties(v)
        ensures Survive(f.typ.children[i], Properties(v)[f.typ.children[i].name])
      {
        IdleSurvives(f.typ.children[i], Properties(v)[f.typ.children[i].name]);
      }
    }
  }

  lemma {:induction false} NoBlobSurvives(f: Field, v: Value)
    requires !ContainsBlob(f)
    ensures Survive(f, v)
    decreases f
  {
    if f.typ.Struct? && IsObject(v) {
      forall i | 0 <= i < |f.typ.children| && f.typ.children[i].name in Properties(v)
        ensures Survive(f.typ.children[i], Properties(v)[f.typ.children[i].name])
      {
        NoBlobSurvives(f.typ.children[i], Properties(v)[f.typ.children[i].name]);
      }
    } else if f.typ.List? && v.Array? {
      forall j | 0 <= j < |v.items| ensures Survive(f.typ.valueField, v.items[j]) {
        NoBlobSurvives(f.typ.valueField, v.items[j]);
      }
    }
  }

  // ---------------------------------------------------------------- the field that is left

  /**
   * `g` is what inference may leave of `f` for a value: the storage of a blob is whole where the
   * value is not null, and a struct lost only fields under which nothing is observed.
   */
  ghost predicate Offers(f: Field, g: Field, v: Value)
    decreases f, 1
  {
    && g.name == f.name && g.metadata == f.metadata
    && if IsBlobField(f) then f.typ.Struct? == g.typ.Struct? && (!f.typ.Struct? || !IsNullish(v) ==> g == f)
       else if f.typ.Struct? then g.typ.Struct? && OffersAll(f.typ.children, g.typ.children, v)
       else g == f
  }

  ghost predicate OffersAll(fields: seq<Field>, kept: seq<Field>, v: Value)
    decreases fields, 0
  {
    && (forall i, j | 0 <= i < j < |kept| :: kept[i].name != kept[j].name)
    && (forall j | 0 <= j < |kept| :: !Unnamed(fields, kept[j].name))
    && (forall i, j | 0 <= i < |fields| && 0 <= j < |kept| && fields[i].name == kept[j].name ::
          OffersChild(fields[i], kept[j], v))
    && (IsObject(v) ==>
          forall i | 0 <= i < |fields| && Unnamed(kept, fields[i].name) && fields[i].name in Properties(v) ::
            Idle(fields[i], Properties(v)[fields[i].name]))
  }

  /** For the property of that name, if the value has one. */
  ghost predicate OffersChild(f: Field, g: Field, v: Value)
    decreases f, 2
  {
    IsObject(v) && f.name in Properties(v) ==> Offers(f, g, Properties(v)[f.name])
  }

  lemma {:induction false} OffersItself(f: Field, v: Value)
    requires Distinct(f)
    ensures Offers(f, f, v)
    decreases f
  {
    if !IsBlobField(f) && f.typ.Struct? {
      var children := f.typ.children;
      forall i, j | 0 <= i < |children| && 0 <= j < |children| && children[i].name == children[j].name
        ensures OffersChild(children[i], children[j], v)
      {
        assert i == j && Distinct(children[i]);
        if IsObject(v) && children[i].name in Properties(v) {
          OffersItself(children[i], Properties(v)[children[i].name]);
        }
      }
      forall i | 0 <= i < |children| ensures !Unnamed(children, children[i].name) {
        assert children[i].name == children[i].name;
      }
      assert OffersAll(children, children, v);
    }
  }

  // ---------------------------------------------------------------- conversion

  /** Where the conversion wants a list there is one, or null. */
  predicate ListsFit(field: Field, p: Place)
    decreases field
  {
    if IsBlobStructField(field) then true
    else if IsBlobList(field) then
      && IsListValue(ValueOf(p))
      && forall j | 0 <= j < |Items(ValueOf(p))| :: ListsFit(field.typ.valueField, At(Items(ValueOf(p))[j]))
    else if field.typ.Struct? then
      forall k | 0 <= k < |field.typ.children| :: ListsFit(field.typ.children[k], Step(p, field.typ.children[k].name))
    else true
  }

  /** Where nothing is, everything converts. */
  lemma {:induction false} NothingConverts(g: Field, p: Place)
    requires p.Missing? || IsNullish(p.value)
    ensures Convertible(g, p) && ListsFit(g, p)
    decreases g
  {
    if !IsBlobStructField(g) && !IsBlobList(g) && g.typ.Struct? {
      forall k | 0 <= k < |g.typ.children|
        ensures Convertible(g.typ.children[k], Step(p, g.typ.children[k].name))
        ensures ListsFit(g.typ.children[k], Step(p, g.typ.children[k].name))
      {
        NothingConverts(g.typ.children[k], Step(p, g.typ.children[k].name));
      }
    }
  }

  /** A property of a mapped object is its mapped property. */
  lemma MappedChild(visit: Visitor, fields: seq<Field>, props: map<string, Value>, i: nat)
    requires MapFields(visit, fields, props).Ok? && DistinctFields(fields) && i < |fields| && fields[i].name in props
    ensures
      var x := props[fields[i].name];
      && MapField(visit, fields[i], x).Ok?
      && (props + MapFields(visit, fields, props).value)[fields[i].name] ==
        After(MapField(visit, fields[i], x).value, x)
  {
    MappedAt(visit, fields, props, i);
    if !ContainsBlob(fields[i]) {
      NoBlobNoPositions(fields[i], props[fields[i].name]);
      NothingToDo(visit, fields[i], props[fields[i].name]);
    }
  }

  /** A mapped object: an object with the mapped properties. */
  lemma MappedObject(visit: Visitor, f: Field, v: Value)
    requires !IsBlobField(f) && f.typ.Struct? && IsObject(v) && MapField(visit, f, v).Ok?
    ensures MapFields(visit, f.typ.children, Properties(v)).Ok?
    ensures
      var w := After(MapField(visit, f, v).value, v);
      IsObject(w) && Properties(w) == Properties(v) + MapFields(visit, f.typ.children, Properties(v)).value
  {
    NoChangesNoDifference(Properties(v), MapFields(visit, f.typ.children, Properties(v)).value);
  }

  /** A mapped list: a list of the mapped items. */
  lemma MappedList(visit: Visitor, f: Field, v: Value)
    requires !IsBlobField(f) && f.typ.List? && v.Array? && MapField(visit, f, v).Ok?
    ensures
      var w := After(MapField(visit, f, v).value, v);
      && w.Array? && |w.items| == |v.items|
      && forall j | 0 <= j < |v.items| ::
           && MapField(visit, f.typ.valueField, v.items[j]).Ok?
           && w.items[j] == After(MapField(visit, f.typ.valueField, v.items[j]).value, v.items[j])
  {
    NoneChangedMerges(v.items, MapItems(visit, f.typ.valueField, v.items).value);
    forall j | 0 <= j < |v.items|
      ensures MapField(visit, f.typ.valueField, v.items[j]) == Ok(MapItems(visit, f.typ.valueField, v.items).value[j])
    {
      MappedItemAt(visit, f.typ.valueField, v.items, j);
    }
  }

  /** The mapped value. */
  function Mapped(f: Field, v: Value): Value
    requires MapField(Coercing(), f, v).Ok?
  {
    After(MapField(Coercing(), f, v).value, v)
  }

  /** What the conversion accepts of the mapped values: lists in place, and blobs that survive. */
  lemma {:induction false} ConvertsExactly(f: Field, g: Field, v: Value)
    requires Distinct(f) && Offers(f, g, v) && MapField(Coercing(), f, v).Ok?
    ensures Convertible(g, At(Mapped(f, v))) <==> ListsFit(g, At(Mapped(f, v))) && Survive(f, v)
    decreases f, 2
  {
    if IsBlobField(f) {
      BlobConverts(f, g, v);
    } else if f.typ.Struct? {
      StructConverts(f, g, v);
    } else if f.typ.List? && v.Array? {
      ListConverts(f, v);
    }
  }

  lemma BlobConverts(f: Field, g: Field, v: Value)
    requires IsBlobField(f) && Offers(f, g, v) && Coerced(v, f).Ok?
    ensures Convertible(g, At(Mapped(f, v))) <==> ListsFit(g, At(Mapped(f, v))) && Survive(f, v)
  {
    CoercedIsFirstPass(v, f);
    CoercedColumns(v, f);
    OwnStorageAgrees(v, f);
    if !f.typ.Struct? && !IsNullish(v) { assert Mapped(f, v).Record?; }
  }

  lemma {:induction false} StructConverts(f: Field, g: Field, v: Value)
    requires !IsBlobField(f) && f.typ.Struct? && Distinct(f) && Offers(f, g, v) && MapField(Coercing(), f, v).Ok?
    ensures Convertible(g, At(Mapped(f, v))) <==> ListsFit(g, At(Mapped(f, v))) && Survive(f, v)
    decreases f, 1
  {
    var w, fields, kept := Mapped(f, v), f.typ.children, g.typ.children;
    if !IsObject(v) {
      forall j | 0 <= j < |kept|
        ensures Convertible(kept[j], Step(At(w), kept[j].name)) && ListsFit(kept[j], Step(At(w), kept[j].name))
      {
        NothingConverts(kept[j], Step(At(w), kept[j].name));
      }
    } else {
      MappedObject(Coercing(), f, v);
      forall j | 0 <= j < |kept|
        ensures Convertible(kept[j], Step(At(w), kept[j].name)) <==>
                ListsFit(kept[j], Step(At(w), kept[j].name)) && ChildSurvives(fields, v, kept[j].name)
      {
        ChildConverts(f, g, v, j);
      }
      StructSurvives(fields, kept, v);
    }
  }

  /** The field of a name, if the value has a property of that name. */
  predicate ChildSurvives(fields: seq<Field>, v: Value, name: string) {
    forall i | 0 <= i < |fields| && fields[i].name == name && name in Properties(v) ::
      Survive(fields[i], Properties(v)[name])
  }

  /** Fields that inference dropped survive on their own. */
  lemma StructSurvives(fields: seq<Field>, kept: seq<Field>, v: Value)
    requires OffersAll(fields, kept, v) && IsObject(v)
    ensures (forall j | 0 <= j < |kept| :: ChildSurvives(fields, v, kept[j].name)) <==>
            (forall i | 0 <= i < |fields| && fields[i].name in Properties(v) ::
              Survive(fields[i], Properties(v)[fields[i].name]))
  {
    if forall j | 0 <= j < |kept| :: ChildSurvives(fields, v, kept[j].name) {
      forall i | 0 <= i < |fields| && fields[i].name in Properties(v)
        ensures Survive(fields[i], Properties(v)[fields[i].name])
      {
        if Unnamed(kept, fields[i].name) {
          IdleSurvives(fields[i], Properties(v)[fields[i].name]);
        } else {
          var j :| 0 <= j < |kept| && kept[j].name == fields[i].name;
          assert ChildSurvives(fields, v, kept[j].name);
        }
      }
    }
  }

  lemma {:induction false} ChildConverts(f: Field, g: Field, v: Value, j: nat)
    requires !IsBlobField(f) && f.typ.Struct? && Distinct(f) && Offers(f, g, v) && MapField(Coercing(), f, v).Ok?
    requires IsObject(v) && j < |g.typ.children|
    ensures
      var kept := g.typ.children[j];
      Convertible(kept, Step(At(Mapped(f, v)), kept.name)) <==>
      ListsFit(kept, Step(At(Mapped(f, v)), kept.name)) && ChildSurvives(f.typ.children, v, kept.name)
    decreases f, 0
  {
    var w, fields, kept := Mapped(f, v), f.typ.children, g.typ.children[j];
    MappedObject(Coercing(), f, v);
    assert OffersAll(fields, g.typ.children, v);
    var i :| 0 <= i < |fields| && fields[i].name == kept.name;
    if kept.name in Properties(v) {
      MappedChild(Coercing(), fields, Properties(v), i);
      assert OffersChild(fields[i], kept, v) && Distinct(fields[i]);
      ConvertsExactly(fields[i], kept, Properties(v)[kept.name]);
      assert forall k | 0 <= k < |fields| && fields[k].name == kept.name :: k == i;
    } else {
      assert kept.name !in Properties(w) by {
        if kept.name in MapFields(Coercing(), fields, Properties(v)).value {
          MappedNames(Coercing(), fields, Properties(v), kept.name);
        }
      }
      NothingConverts(kept, Missing);
    }
  }

  lemma {:induction false} ListConverts(f: Field, v: Value)
    requires !IsBlobField(f) && f.typ.List? && v.Array? && Distinct(f) && MapField(Coercing(), f, v).Ok?
    ensures Convertible(f, At(Mapped(f, v))) <==> ListsFit(f, At(Mapped(f, v))) && Survive(f, v)
    decreases f, 1
  {
    var w, item := Mapped(f, v), f.typ.valueField;
    MappedList(Coercing(), f, v);
    if ContainsBlob(item) {
      ListParts(f, w.items);
      forall j | 0 <= j < |v.items|
        ensures Convertible(item, At(w.items[j])) <==> ListsFit(item, At(w.items[j])) && Survive(item, v.items[j])
      {
        OffersItself(item, v.items[j]);
        ConvertsExactly(item, item, v.items[j]);
      }
    } else {
      NoBlobSurvives(f, v);
    }
  }

  /** A list converts, and fits, item by item. */
  lemma ListParts(f: Field, items: seq<Value>)
    requires !IsBlobField(f) && IsBlobList(f)
    ensures Convertible(f, At(Array(items))) <==>
            forall j | 0 <= j < |items| :: Convertible(f.typ.valueField, At(items[j]))
    ensures ListsFit(f, At(Array(items))) <==> forall j | 0 <= j < |items| :: ListsFit(f.typ.valueField, At(items[j]))
  {
    assert Items(Array(items)) == items;
  }

  // ---------------------------------------------------------------- what is read back

  /**
   * At every blob position under a field the place read back has exactly the columns of the
   * storage, or of the blob itself where the storage is not a struct, each with what the input gives
   * for it; a null blob is null, or missing where inference saw nothing.
   */
  ghost predicate Delivered(f: Field, v: Value, a: Place)
    decreases f
  {
    if IsBlobField(f) then
      if IsNullish(v) then a.Missing? || (if f.typ.Struct? then a == At(Null) else IsNullish(a.value))
      else TakenAsBlob(v, f) && a.At? && Stores(f, v, a.value)
    else if f.typ.Struct? && IsObject(v) then
      forall i | 0 <= i < |f.typ.children| && f.typ.children[i].name in Properties(v) ::
        Delivered(f.typ.children[i], Properties(v)[f.typ.children[i].name], Step(a, f.typ.children[i].name))
    else if IsBlobList(f) && v.Array? then
      a.At? && a.value.Array? && |a.value.items| == |v.items| &&
      forall j | 0 <= j < |v.items| :: Delivered(f.typ.valueField, v.items[j], At(a.value.items[j]))
    else true
  }

  /** The columns that an input is stored in. */
  predicate StoredIn(storage: Field, v: Value, name: string) {
    if storage.typ.Struct? then HasChild(storage, name)
    else name == "data" || name == "uri" || ((name == "position" || name == "size") && HasRange(v))
  }

  /** An object has just those columns, with what the input gives for each. */
  ghost predicate Stores(storage: Field, v: Value, r: Value) {
    && r.Record?
    && (forall name :: name in r.fields <==> StoredIn(storage, v, name))
    && (forall name | name in r.fields :: r.fields[name] == Payload(v, name))
  }

  /** What a blob is stored as. */
  function Stored(b: BlobValue, storage: Field): Value {
    if storage.typ.Struct? then Record(BlobCells(b, storage.typ.children)) else AsRecord(b)
  }

  /** The cells of a blob are the columns of its storage. */
  lemma {:induction false} CellAt(b: BlobValue, children: seq<Field>, name: string)
    ensures name in BlobCells(b, children) <==> !Unnamed(children, name)
    ensures name in BlobCells(b, children) ==> BlobCells(b, children)[name] == BlobColumn(b, name)
    decreases |children|
  {
    if children != [] {
      CellAt(b, children[1..], name);
      assert Unnamed(children, name) <==> children[0].name != name && Unnamed(children[1..], name) by {
        forall k | 0 <= k < |children| - 1 ensures children[1..][k] == children[k + 1] {}
      }
    }
  }

  lemma StoredStores(v: Value, f: Field)
    requires Coerce(v, f).Ok? && !IsNullish(v)
    ensures TakenAsBlob(v, f) && Coerce(v, f).value.Some? && Stores(f, v, Stored(Coerce(v, f).value.value, f))
  {
    CoerceSucceeds(v, f);
    CoercedColumns(v, f);
    var b := Coerce(v, f).value.value;
    forall name
      ensures name in Stored(b, f).fields <==> StoredIn(f, v, name)
      ensures name in Stored(b, f).fields ==> Stored(b, f).fields[name] == Payload(v, name)
    {
      CoercedPayload(v, f, name);
      if f.typ.Struct? { CellAt(b, f.typ.children, name); }
    }
  }

  lemma {:induction false} IdleDelivered(f: Field, v: Value)
    requires Idle(f, v)
    ensures Delivered(f, v, Missing)
    decreases f
  {
    if !IsBlobField(f) && f.typ.Struct? && IsObject(v) {
      forall i | 0 <= i < |f.typ.children| && f.typ.children[i].name in Properties(v)
        ensures Delivered(f.typ.children[i], Properties(v)[f.typ.children[i].name], Missing)
      {
        IdleDelivered(f.typ.children[i], Properties(v)[f.typ.children[i].name]);
      }
    }
  }

  lemma {:induction false} CanonAllAt(fields: seq<Field>, p: Place, name: string)
    requires forall k | 0 <= k < |fields| :: Convertible(fields[k], Step(p, fields[k].name))
    requires forall i, j | 0 <= i < j < |fields| :: fields[i].name != fields[j].name
    ensures Unnamed(fields, name) ==> name !in CanonAll(fields, p)
    ensures forall k | 0 <= k < |fields| && fields[k].name == name ::
              name in CanonAll(fields, p) && CanonAll(fields, p)[name] == Canon(fields[k], Step(p, name))
    decreases |fields|
  {
    if fields != [] {
      var rest := fields[1..];
      CanonAllAt(rest, p, name);
      if Unnamed(fields, name) {
        forall k | 0 <= k < |rest| ensures rest[k].name != name { assert rest[k] == fields[k + 1]; }
      }
      forall k | 0 <= k < |fields| && fields[k].name == name
        ensures name in CanonAll(fields, p) && CanonAll(fields, p)[name] == Canon(fields[k], Step(p, name))
      {
        if k > 0 { assert rest[k - 1] == fields[k] && fields[0].name != name; }
      }
    }
  }

  /** Reading back what was shredded delivers every blob. */
  lemma {:induction false} ConversionDelivers(f: Field, g: Field, v: Value)
    requires Distinct(f) && Offers(f, g, v) && MapField(Coercing(), f, v).Ok? && Convertible(g, At(Mapped(f, v)))
    ensures Delivered(f, v, At(Canon(g, At(Mapped(f, v)))))
    decreases f, 2
  {
    if IsBlobField(f) {
      BlobDelivered(f, g, v);
    } else if f.typ.Struct? && IsObject(v) {
      StructDelivered(f, g, v);
    } else if IsBlobList(f) && v.Array? {
      ListDelivered(f, v);
    }
  }

  lemma {:induction false} ListDelivered(f: Field, v: Value)
    requires !IsBlobField(f) && IsBlobList(f) && v.Array? && Distinct(f)
    requires MapField(Coercing(), f, v).Ok? && Convertible(f, At(Mapped(f, v)))
    ensures Delivered(f, v, At(Canon(f, At(Mapped(f, v)))))
    decreases f, 1
  {
    var w, item := Mapped(f, v), f.typ.valueField;
    MappedList(Coercing(), f, v);
    ListParts(f, w.items);
    forall j | 0 <= j < |v.items| ensures Delivered(item, v.items[j], At(Canon(item, At(w.items[j])))) {
      OffersItself(item, v.items[j]);
      ConversionDelivers(item, item, v.items[j]);
    }
    assert Canon(f, At(w)) == Array(CanonItems(item, w.items));
  }

  lemma BlobDelivered(f: Field, g: Field, v: Value)
    requires IsBlobField(f) && Offers(f, g, v) && Coerced(v, f).Ok? && Convertible(g, At(Mapped(f, v)))
    ensures Delivered(f, v, At(Canon(g, At(Mapped(f, v)))))
  {
    CoercedIsFirstPass(v, f);
    CoercedColumns(v, f);
    OwnStorageAgrees(v, f);
    if !IsNullish(v) { StoredStores(v, f); }
  }

  lemma {:induction false} StructDelivered(f: Field, g: Field, v: Value)
    requires !IsBlobField(f) && f.typ.Struct? && IsObject(v) && Distinct(f) && Offers(f, g, v)
    requires MapField(Coercing(), f, v).Ok? && Convertible(g, At(Mapped(f, v)))
    ensures Delivered(f, v, At(Canon(g, At(Mapped(f, v)))))
    decreases f, 1
  {
    MappedObject(Coercing(), f, v);
    var a := At(Record(CanonAll(g.typ.children, At(Mapped(f, v)))));
    assert Canon(g, At(Mapped(f, v))) == a.value;
    forall i | 0 <= i < |f.typ.children| && f.typ.children[i].name in Properties(v)
      ensures Delivered(f.typ.children[i], Properties(v)[f.typ.children[i].name], Step(a, f.typ.children[i].name))
    {
      PropertyDelivered(f, g, v, i);
    }
  }

  /** One property of a struct: kept and delivered, or dropped and idle. */
  lemma {:induction false} PropertyDelivered(f: Field, g: Field, v: Value, i: nat)
    requires !IsBlobField(f) && f.typ.Struct? && IsObject(v) && Distinct(f) && Offers(f, g, v)
    requires MapField(Coercing(), f, v).Ok? && i < |f.typ.children| && f.typ.children[i].name in Properties(v)
    requires forall k | 0 <= k < |g.typ.children| ::
               Convertible(g.typ.children[k], Step(At(Mapped(f, v)), g.typ.children[k].name))
    ensures Delivered(f.typ.children[i], Properties(v)[f.typ.children[i].name],
                      Step(At(Record(CanonAll(g.typ.children, At(Mapped(f, v))))), f.typ.children[i].name))
    decreases f, 0, 1
  {
    var name, kept := f.typ.children[i].name, g.typ.children;
    CanonAllAt(kept, At(Mapped(f, v)), name);
    if Unnamed(kept, name) {
      IdleDelivered(f.typ.children[i], Properties(v)[name]);
    } else {
      var j :| 0 <= j < |kept| && kept[j].name == name;
      ChildDelivered(f, g, v, i, j);
    }
  }

  lemma {:induction false} ChildDelivered(f: Field, g: Field, v: Value, i: nat, j: nat)
    requires !IsBlobField(f) && f.typ.Struct? && IsObject(v) && Distinct(f) && Offers(f, g, v)
    requires MapField(Coercing(), f, v).Ok? && i < |f.typ.children| && j < |g.typ.children|
    requires f.typ.children[i].name == g.typ.children[j].name && f.typ.children[i].name in Properties(v)
    requires Convertible(g.typ.children[j], Step(At(Mapped(f, v)), g.typ.children[j].name))
    ensures Delivered(f.typ.children[i], Properties(v)[f.typ.children[i].name],
                      At(Canon(g.typ.children[j], Step(At(Mapped(f, v)), g.typ.children[j].name))))
    decreases f, 0, 0
  {
    var c, x := f.typ.children[i], Properties(v)[f.typ.children[i].name];
    MappedObject(Coercing(), f, v);
    MappedChild(Coercing(), f.typ.children, Properties(v), i);
    assert OffersChild(c, g.typ.children[j], v) && Distinct(c);
    assert Step(At(Mapped(f, v)), c.name) == At(Mapped(c, x));
    ConversionDelivers(c, g.typ.children[j], x);
  }

  // ---------------------------------------------------------------- nothing is lost

  /** At every blob position under a field, each column that the value fills is read back and is not null. */
  ghost predicate Complete(f: Field, v: Value, a: Place)
    decreases f
  {
    if IsBlobField(f) then
      !IsNullish(v) ==>
        a.At? && a.value.Record? &&
        forall name | Fills(v, name) :: name in a.value.fields && !a.value.fields[name].Null?
    else if f.typ.Struct? && IsObject(v) then
      forall i | 0 <= i < |f.typ.children| && f.typ.children[i].name in Properties(v) ::
        Complete(f.typ.children[i], Properties(v)[f.typ.children[i].name], Step(a, f.typ.children[i].name))
    else if IsBlobList(f) && v.Array? then
      a.At? && a.value.Array? && |a.value.items| == |v.items| &&
      forall j | 0 <= j < |v.items| :: Complete(f.typ.valueField, v.items[j], At(a.value.items[j]))
    else true
  }

  /** At every blob position under a field, struct storage has the column that holds the blob. */
  predicate KeepsSource(f: Field, v: Value)
    decreases f
  {
    if IsBlobField(f) then IsNullish(v) || !f.typ.Struct? || HasChild(f, SourceOf(v))
    else if f.typ.Struct? && IsObject(v) then
      forall i | 0 <= i < |f.typ.children| && f.typ.children[i].name in Properties(v) ::
        KeepsSource(f.typ.children[i], Properties(v)[f.typ.children[i].name])
    else if IsBlobList(f) && v.Array? then forall j | 0 <= j < |v.items| :: KeepsSource(f.typ.valueField, v.items[j])
    else true
  }

  /** A column that an accepted input does not fill gets null. */
  lemma FillsItsPayload(v: Value, f: Field, name: string)
    requires TakenAsBlob(v, f) && !IsNullish(v)
    ensures Payload(v, name).Null? <==> !Fills(v, name)
    ensures HasRange(v) ==> HasChild(f, "position") && HasChild(f, "size")
  {
    CoerceSucceeds(v, f);
    CoercedColumns(v, f);
    CoercedPayload(v, f, name);
    assert Fills(v, "position") <==> HasRange(v);
  }

  /** One blob is stored complete exactly when its storage has the column that holds it. */
  lemma StoredExactly(f: Field, v: Value, r: Value)
    requires IsBlobField(f) && !IsNullish(v) && TakenAsBlob(v, f) && Stores(f, v, r)
    ensures Complete(f, v, At(r)) <==> KeepsSource(f, v)
  {
    forall name ensures Payload(v, name).Null? <==> !Fills(v, name) { FillsItsPayload(v, f, name); }
    FillsItsPayload(v, f, SourceOf(v));
    assert Fills(v, SourceOf(v)) && StoredIn(f, v, SourceOf(v)) == KeepsSource(f, v);
  }

  /** What was delivered is complete if and only if every storage has the column that holds the blob. */
  lemma {:induction false} CompleteExactly(f: Field, v: Value, a: Place)
    requires Delivered(f, v, a)
    ensures Complete(f, v, a) <==> KeepsSource(f, v)
    decreases f
  {
    if IsBlobField(f) {
      if !IsNullish(v) { StoredExactly(f, v, a.value); }
    } else if f.typ.Struct? && IsObject(v) {
      forall i | 0 <= i < |f.typ.children| && f.typ.children[i].name in Properties(v)
        ensures Complete(f.typ.children[i], Properties(v)[f.typ.children[i].name], Step(a, f.typ.children[i].name)) <==>
                KeepsSource(f.typ.children[i], Properties(v)[f.typ.children[i].name])
      {
        CompleteExactly(f.typ.children[i], Properties(v)[f.typ.children[i].name], Step(a, f.typ.children[i].name));
      }
    } else if IsBlobList(f) && v.Array? {
      forall j | 0 <= j < |v.items|
        ensures Complete(f.typ.valueField, v.items[j], At(a.value.items[j])) <==>
                KeepsSource(f.typ.valueField, v.items[j])
      {
        CompleteExactly(f.typ.valueField, v.items[j], At(a.value.items[j]));
      }
    }
  }
}
