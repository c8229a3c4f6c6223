/**
 * `resolveBlobInputs`: a first traversal starts one read for each blob handle it meets, a
 * second replaces the handles with the bytes. The traversals run over shared JavaScript objects;
 * they copy only what changes and never write to an object they were given.
 */
module BlobReading {
  import opened Values
  import opened ArrowTypes
  import opened Blobs
  import opened Columns
  import opened BlobTraversal
  import opened JsObjects

  // ---------------------------------------------------------------- which handles are read

  /** The reads started after meeting some more positions: one for each new handle. */
  function Gather(started: seq<nat>, ps: seq<Position>): seq<nat>
    decreases |ps|
  {
    if ps == [] then started
    else
      var before := Gather(started, ps[..|ps| - 1]);
      var source := BlobToRead(ps[|ps| - 1].value);
      if source.Some? && source.value !in before then before + [source.value] else before
  }

  lemma {:induction false} GatherConcat(started: seq<nat>, a: seq<Position>, b: seq<Position>)
    ensures Gather(started, a + b) == Gather(Gather(started, a), b)
    decreases |b|
  {
    if b == [] {
      assert a + b == a;
    } else {
      assert (a + b)[..|a + b| - 1] == a + b[..|b| - 1] && (a + b)[|a + b| - 1] == b[|b| - 1];
      GatherConcat(started, a, b[..|b| - 1]);
    }
  }

  predicate NoDuplicates(ids: seq<nat>) {
    forall i, j | 0 <= i < j < |ids| :: ids[i] != ids[j]
  }

  /** A value is a handle, or an object with a handle under `data`. */
  predicate IsHandle(v: Value, id: nat) {
    || v == BlobHandle(id)
    || ((v.Record? || v.Instance?) && "data" in v.fields && v.fields["data"] == BlobHandle(id))
  }

  ghost predicate HasHandle(ps: seq<Position>, id: nat) {
    exists p | p in ps :: IsHandle(p.value, id)
  }

  /** Each distinct handle is read exactly once. */
  lemma {:induction false} GatherReadsOnce(started: seq<nat>, ps: seq<Position>)
    requires NoDuplicates(started)
    ensures NoDuplicates(Gather(started, ps))
    ensures forall id :: id in Gather(started, ps) <==> id in started || HasHandle(ps, id)
    decreases |ps|
  {
    if ps != [] {
      var front, last := ps[..|ps| - 1], ps[|ps| - 1];
      GatherReadsOnce(started, front);
      assert forall p :: p in ps <==> p in front || p == last;
    }
  }

  // ---------------------------------------------------------------- what replaces a handle

  /** The visitor of the second traversal. */
  function Fetch(bytes: map<nat, Bytes>): Visitor {
    (v: Value, _: Field) => Fetched(v, bytes)
  }

  /** A value without a handle is handed back; a handle whose bytes are missing is an error. */
  function Fetched(v: Value, bytes: map<nat, Bytes>): Result<Option<Value>> {
    match BlobToRead(v)
    case None => Ok(None)
    case Some(id) => if id in bytes then Ok(Some(WithBlobBytes(v, bytes[id]))) else Err
  }

  /**
   * A value at a blob position after reading: bytes in place of a handle, bare or under `data`, with
   * every other property reading as before; anything else is itself.
   */
  ghost predicate BytesInPlace(v: Value, w: Value, contents: nat -> Bytes) {
    if v.BlobHandle? then w == Uint8Array(contents(v.id))
    else if (v.Record? || v.Instance?) && "data" in v.fields && v.fields["data"].BlobHandle? then
      w.Record? && forall name ::
        if name == "data" then name in w.fields && w.fields[name] == Uint8Array(contents(v.fields["data"].id))
        else ReadsAs(w.fields, name, v.fields) && (name in w.fields ==> name in v.fields || IsBlobKey(name))
    else w == v
  }

  /** A property reads as another object's does: a missing one is undefined. */
  predicate ReadsAs(fields: map<string, Value>, name: string, before: map<string, Value>) {
    if name in before then name in fields && fields[name] == before[name]
    else name in fields ==> fields[name] == Undefined
  }

  /** At every blob position under a field the bytes are in place, and everything else is as it was. */
  ghost predicate ResolvedAt(f: Field, v: Value, w: Value, contents: nat -> Bytes)
    decreases f, 1
  {
    if IsBlobField(f) then BytesInPlace(v, w, contents)
    else if f.typ.Struct? && IsObject(v) then
      IsObject(w) && ResolvedIn(f.typ.children, Properties(v), Properties(w), contents)
    else if f.typ.List? && v.Array? then
      w.Array? && |w.items| == |v.items| &&
      forall i | 0 <= i < |v.items| :: ResolvedAt(f.typ.valueField, v.items[i], w.items[i], contents)
    else w == v
  }

  ghost predicate ResolvedIn(
    fields: seq<Field>, props: map<string, Value>, after: map<string, Value>, contents: nat -> Bytes)
    decreases fields, 0
  {
    && props.Keys == after.Keys
    && (forall k | 0 <= k < |fields| && fields[k].name in props ::
          ResolvedAt(fields[k], props[fields[k].name], after[fields[k].name], contents))
    && (forall name | name in props && Unnamed(fields, name) :: after[name] == props[name])
  }

  /** One row. */
  ghost predicate ResolvedRow(fields: seq<Field>, row: Value, after: Value, contents: nat -> Bytes) {
    if IsObject(row) then IsObject(after) && ResolvedIn(fields, Properties(row), Properties(after), contents)
    else after == row
  }

  /** What was read is what the handles hold. */
  ghost predicate ReadFrom(bytes: map<nat, Bytes>, contents: nat -> Bytes) {
    forall id | id in bytes :: bytes[id] == contents(id)
  }

  lemma FetchedInPlace(v: Value, bytes: map<nat, Bytes>, contents: nat -> Bytes)
    requires Fetched(v, bytes).Ok? && ReadFrom(bytes, contents)
    ensures BytesInPlace(v, After(Fetched(v, bytes).value, v), contents)
  {
  }

  /** The second traversal resolves every blob position under a field. */
  lemma {:induction false} MapResolves(f: Field, v: Value, bytes: map<nat, Bytes>, contents: nat -> Bytes)
    requires Distinct(f) && MapField(Fetch(bytes), f, v).Ok? && ReadFrom(bytes, contents)
    ensures ResolvedAt(f, v, After(MapField(Fetch(bytes), f, v).value, v), contents)
    decreases f, 2
  {
    if IsBlobField(f) {
      FetchedInPlace(v, bytes, contents);
    } else if f.typ.Struct? && IsObject(v) {
      MapFieldsResolve(f.typ.children, Properties(v), bytes, contents);
      NoChangesNoDifference(Properties(v), MapFields(Fetch(bytes), f.typ.children, Properties(v)).value);
    } else if f.typ.List? && v.Array? {
      MapItemsResolve(f.typ.valueField, v.items, bytes, contents);
      NoneChangedMerges(v.items, MapItems(Fetch(bytes), f.typ.valueField, v.items).value);
    }
  }

  lemma {:induction false} MapFieldsResolve(
    fields: seq<Field>, props: map<string, Value>, bytes: map<nat, Bytes>, contents: nat -> Bytes)
    requires DistinctFields(fields) && MapFields(Fetch(bytes), fields, props).Ok? && ReadFrom(bytes, contents)
    ensures ResolvedIn(fields, props, props + MapFields(Fetch(bytes), fields, props).value, contents)
    decreases fields, 1
  {
    var changes := MapFields(Fetch(bytes), fields, props).value;
    MapFieldsKeepsTheRest(Fetch(bytes), fields, props);
    forall k | 0 <= k < |fields| && fields[k].name in props
      ensures ResolvedAt(fields[k], props[fields[k].name], (props + changes)[fields[k].name], contents)
    {
      MappedAt(Fetch(bytes), fields, props, k);
      if ContainsBlob(fields[k]) {
        MapResolves(fields[k], props[fields[k].name], bytes, contents);
      } else {
        NothingToResolve(fields[k], props[fields[k].name], contents);
      }
    }
  }

  lemma {:induction false} MapItemsResolve(
    item: Field, items: seq<Value>, bytes: map<nat, Bytes>, contents: nat -> Bytes)
    requires Distinct(item) && MapItems(Fetch(bytes), item, items).Ok? && ReadFrom(bytes, contents)
    ensures forall i | 0 <= i < |items| ::
              ResolvedAt(item, items[i], Merged(items, MapItems(Fetch(bytes), item, items).value)[i], contents)
    decreases item, 3
  {
    forall i | 0 <= i < |items|
      ensures ResolvedAt(item, items[i], Merged(items, MapItems(Fetch(bytes), item, items).value)[i], contents)
    {
      MappedItemAt(Fetch(bytes), item, items, i);
      MapResolves(item, items[i], bytes, contents);
    }
  }

  /** Under a field without blobs every value is as it was. */
  lemma {:induction false} NothingToResolve(f: Field, v: Value, contents: nat -> Bytes)
    requires !ContainsBlob(f)
    ensures ResolvedAt(f, v, v, contents)
    decreases f
  {
    if f.typ.Struct? && IsObject(v) {
      forall k | 0 <= k < |f.typ.children| && f.typ.children[k].name in Properties(v)
        ensures ResolvedAt(f.typ.children[k], Properties(v)[f.typ.children[k].name],
                           Properties(v)[f.typ.children[k].name], contents)
      {
        NothingToResolve(f.typ.children[k], Properties(v)[f.typ.children[k].name], contents);
      }
    } else if f.typ.List? && v.Array? {
      forall i | 0 <= i < |v.items| ensures ResolvedAt(f.typ.valueField, v.items[i], v.items[i], contents) {
        NothingToResolve(f.typ.valueField, v.items[i], contents);
      }
    }
  }

  lemma RowIsResolved(fields: seq<Field>, row: Value, bytes: map<nat, Bytes>, contents: nat -> Bytes)
    requires DistinctFields(fields) && MapRow(Fetch(bytes), fields, row).Ok? && ReadFrom(bytes, contents)
    ensures ResolvedRow(fields, row, MapRow(Fetch(bytes), fields, row).value, contents)
  {
    if IsObject(row) {
      MapFieldsResolve(fields, Properties(row), bytes, contents);
      NoChangesNoDifference(Properties(row), MapFields(Fetch(bytes), fields, Properties(row)).value);
    }
  }

  /** Bytes put in place of a handle leave none. */
  lemma FetchedHasNoHandle(v: Value, bytes: map<nat, Bytes>)
    requires Fetched(v, bytes).Ok?
    ensures BlobToRead(After(Fetched(v, bytes).value, v)).None?
  {
  }

  /** Once every handle has its bytes, the second traversal succeeds. */
  lemma EveryLookupHits(fields: seq<Field>, props: map<string, Value>, bytes: map<nat, Bytes>)
    requires forall id | HasHandle(PositionsIn(fields, props), id) :: id in bytes
    ensures MapFields(Fetch(bytes), fields, props).Ok?
  {
    MapFieldsSucceeds(Fetch(bytes), fields, props);
    forall p | p in PositionsIn(fields, props) ensures Fetched(p.value, bytes).Ok? {
      if BlobToRead(p.value).Some? { assert HasHandle(PositionsIn(fields, props), BlobToRead(p.value).value); }
    }
  }

  /** After the second traversal every blob position holds the visitor's answer and no handle is left. */
  lemma ResolvedRows(fields: seq<Field>, row: Value, bytes: map<nat, Bytes>)
    requires IsObject(row) && DistinctFields(fields) && MapRow(Fetch(bytes), fields, row).Ok?
    ensures
      var before, after := PositionsIn(fields, Properties(row)), MapRow(Fetch(bytes), fields, row).value;
      && IsObject(after) && Accepts(Fetch(bytes), before)
      && PositionsIn(fields, Properties(after)) == Visited(Fetch(bytes), before)
      && (forall p | p in PositionsIn(fields, Properties(after)) :: BlobToRead(p.value).None?)
      && SameFieldsElsewhere(fields, Properties(row), Properties(after))
  {
    var props := Properties(row);
    var changes := MapFields(Fetch(bytes), fields, props).value;
    MapFieldsIsMap(Fetch(bytes), fields, props, |fields|);
    assert fields[..|fields|] == fields;
    MapFieldsKeepsTheRest(Fetch(bytes), fields, props);
    NoChangesNoDifference(props, changes);
    NoHandleLeft(PositionsIn(fields, props), bytes);
  }

  lemma NoHandleLeft(ps: seq<Position>, bytes: map<nat, Bytes>)
    requires Accepts(Fetch(bytes), ps)
    ensures forall p | p in Visited(Fetch(bytes), ps) :: BlobToRead(p.value).None?
  {
    forall p | p in Visited(Fetch(bytes), ps) ensures BlobToRead(p.value).None? {
      var i :| 0 <= i < |ps| && Visited(Fetch(bytes), ps)[i] == p;
      assert ps[i] in ps;
      FetchedHasNoHandle(ps[i].value, bytes);
    }
  }

  // ---------------------------------------------------------------- the first traversal, on objects

  /** `blobToRead`, on a reference. */
  method HandleOf(r: Ref, ghost v: Value, ghost heap: set<object>) returns (id: Option<nat>)
    requires Shows(heap, r, v)
    ensures id == BlobToRead(v)
  {
    if r.Atom? && r.value.BlobHandle? {
      return Some(r.value.id);
    }
    if r.ObjectRef? && (r.obj.plain || "data" in r.obj.props || "uri" in r.obj.props) {
      var data := GetRef(r.obj.props, "data");
      if data.Atom? && data.value.BlobHandle? {
        return Some(data.value.id);
      }
    }
    return None;
  }

  /** The visitor of the first traversal, under one field. */
  method CollectField(f: Field, r: Ref, started: seq<nat>, ghost v: Value, ghost heap: set<object>)
    returns (out: seq<nat>)
    requires Shows(heap, r, v)
    ensures out == Gather(started, Positions(f, v))
    decreases f, 2
  {
    if IsBlobField(f) {
      var source := HandleOf(r, v, heap);
      out := if source.Some? && source.value !in started then started + [source.value] else started;
      assert Positions(f, v)[..0] == [];
    } else if f.typ.Struct? && IsObjectRef(r) {
      ShownObject(heap, r, v);
      out := CollectFields(f.typ.children, PropsOf(r), started, Properties(v), heap);
    } else if f.typ.List? && r.ArrayRef? {
      out := CollectItems(f.typ.valueField, r.arr.items, started, v.items, heap);
    } else {
      ShownObject(heap, r, v);
      out := started;
    }
  }

  method CollectItems(item: Field, refs: seq<Ref>, started: seq<nat>, ghost items: seq<Value>, ghost heap: set<object>)
    returns (out: seq<nat>)
    requires |refs| == |items| && forall i | 0 <= i < |items| :: Shows(heap, refs[i], items[i])
    ensures out == Gather(started, PositionsOf(item, items))
    decreases item, 3
  {
    out := started;
    var i := 0;
    while i < |refs|
      invariant 0 <= i <= |refs|
      invariant out == Gather(started, PositionsOf(item, items[..i]))
    {
      assert items[..i + 1][..i] == items[..i];
      GatherConcat(started, PositionsOf(item, items[..i]), Positions(item, items[i]));
      out := CollectField(item, refs[i], out, items[i], heap);
      i := i + 1;
    }
    assert items[..i] == items;
  }

  /** `mapBlobFields` of the first traversal; it skips fields without blobs. */
  method CollectFields(
    fields: seq<Field>, refs: map<string, Ref>, started: seq<nat>, ghost props: map<string, Value>,
      ghost heap: set<object>)
    returns (out: seq<nat>)
    requires ShowsProps(heap, refs, props)
    ensures out == Gather(started, PositionsIn(fields, props))
    decreases fields, 0
  {
    out := started;
    var i := 0;
    while i < |fields|
      invariant 0 <= i <= |fields|
      invariant out == Gather(started, PositionsIn(fields[..i], props))
    {
      var f := fields[i];
      assert fields[..i + 1][..i] == fields[..i];
      if ContainsBlob(f) && f.name in refs {
        GatherConcat(started, PositionsIn(fields[..i], props), Positions(f, props[f.name]));
        out := CollectField(f, refs[f.name], out, props[f.name], heap);
      } else {
        if f.name in props { NoBlobNoPositions(f, props[f.name]); }
        assert PositionsIn(fields[..i], props) + [] == PositionsIn(fields[..i], props);
      }
      i := i + 1;
    }
    assert fields[..i] == fields;
  }

  // ---------------------------------------------------------------- the second traversal, on objects

  /**
   * A reference after the second traversal: the same one if nothing under it changes, otherwise
   * another one, whose object is new and shows the changed value.
   */
  ghost predicate Replaces(heap: set<object>, heap': set<object>, r: Ref, out: Ref, change: Option<Value>)
    reads heap'
  {
    match change
    case None => out == r
    case Some(w) =>
      && out != r && Shows(heap', out, w)
      && (out.ObjectRef? ==> out.obj !in heap) && (out.ArrayRef? ==> out.arr !in heap)
  }

  /** `withBlobBytes` on a value that holds a handle, otherwise the value itself. */
  method FetchRef(r: Ref, bytes: map<nat, Bytes>, ghost v: Value, ghost heap: set<object>)
    returns (out: Ref, ghost heap': set<object>)
    requires Shows(heap, r, v) && Fetched(v, bytes).Ok?
    ensures heap <= heap' && fresh(heap' - heap)
    ensures Replaces(heap, heap', r, out, Fetched(v, bytes).value)
  {
    var id := HandleOf(r, v, heap);
    if id.None? {
      return r, heap;
    }
    if r.Atom? {
      return Atom(Uint8Array(bytes[id.value])), heap;
    }
    ShownObject(heap, r, v);
    WithBytesShown(heap, r.obj.props, v.fields, bytes[id.value]);
    var copy := new JsObject(true, RefsWithBytes(r.obj.props, bytes[id.value]));
    ghost var made: object := copy;
    out, heap' := ObjectRef(copy), heap + {made};
    ShowsNew(heap, heap', copy, FieldsWithBytes(v.fields, bytes[id.value]));
  }

  /** The properties of `withBlobBytes`, as references and as values. */
  function RefsWithBytes(refs: map<string, Ref>, bytes: Bytes): map<string, Ref> {
    refs["uri" := GetRef(refs, "uri")]["position" := GetRef(refs, "position")]
        ["size" := GetRef(refs, "size")]["data" := Atom(Uint8Array(bytes))]
  }

  ghost function FieldsWithBytes(fields: map<string, Value>, bytes: Bytes): map<string, Value> {
    fields["uri" := Get(fields, "uri")]["position" := Get(fields, "position")]
          ["size" := Get(fields, "size")]["data" := Uint8Array(bytes)]
  }

  lemma WithBytesShown(heap: set<object>, refs: map<string, Ref>, fields: map<string, Value>, bytes: Bytes)
    requires ShowsProps(heap, refs, fields)
    ensures ShowsProps(heap, RefsWithBytes(refs, bytes), FieldsWithBytes(fields, bytes))
  {
    ShowsGet(heap, refs, fields, "uri");
    ShowsGet(heap, refs, fields, "position");
    ShowsGet(heap, refs, fields, "size");
    var refs1, fields1 := refs["uri" := GetRef(refs, "uri")], fields["uri" := Get(fields, "uri")];
    ShowsPut(heap, refs, fields, "uri", GetRef(refs, "uri"), Get(fields, "uri"));
    ShowsPut(heap, refs1, fields1, "position", GetRef(refs, "position"), Get(fields, "position"));
    var refs2, fields2 := refs1["position" := GetRef(refs, "position")], fields1["position" := Get(fields, "position")];
    ShowsPut(heap, refs2, fields2, "size", GetRef(refs, "size"), Get(fields, "size"));
    var refs3, fields3 := refs2["size" := GetRef(refs, "size")], fields2["size" := Get(fields, "size")];
    ShowsPut(heap, refs3, fields3, "data", Atom(Uint8Array(bytes)), Uint8Array(bytes));
  }

  /** `mapBlobField`. */
  method MapFieldRef(f: Field, r: Ref, bytes: map<nat, Bytes>, ghost v: Value, ghost heap: set<object>)
    returns (out: Ref, ghost heap': set<object>)
    requires Shows(heap, r, v) && MapField(Fetch(bytes), f, v).Ok?
    ensures heap <= heap' && fresh(heap' - heap) && unchanged(heap)
    ensures Replaces(heap, heap', r, out, MapField(Fetch(bytes), f, v).value)
    decreases f, 2
  {
    ShownObject(heap, r, v);
    ShownArray(heap, r, v);
    if IsBlobField(f) {
      out, heap' := FetchRef(r, bytes, v, heap);
    } else if f.typ.Struct? && IsObjectRef(r) {
      out, heap' := MapFieldsRef(f.typ.children, r, bytes, v, heap);
    } else if f.typ.List? && r.ArrayRef? {
      out, heap' := MapItemsRef(f.typ.valueField, r, bytes, v, heap);
    } else {
      out, heap' := r, heap;
    }
  }

  /** What `mapBlobFields` makes of an object. */
  ghost function RecordChange(v: Value, changes: map<string, Value>): Option<Value> {
    if changes == map[] then None else Some(Record(Properties(v) + changes))
  }

  /** The copy so far: changed names show their new values, the others keep their references. */
  ghost predicate Copied(
    heap: set<object>, refs: map<string, Ref>, copy: map<string, Ref>, changes: map<string, Value>)
    reads heap
  {
    && copy.Keys == refs.Keys && changes.Keys <= refs.Keys
    && forall name | name in refs ::
         if name in changes then Shows(heap, copy[name], changes[name]) else copy[name] == refs[name]
  }

  /** There is a copy once something has changed; it is new and plain. */
  ghost predicate CopyFor(
    heap: set<object>, refs: map<string, Ref>, copy: JsObject?, changes: map<string, Value>)
    reads heap, copy
  {
    && (copy == null <==> changes == map[])
    && (copy != null ==> copy !in heap && copy.plain && Copied(heap, refs, copy.props, changes))
  }

  ghost function WithChange(changes: map<string, Value>, name: string, change: Option<Value>): map<string, Value> {
    if change.Some? then changes[name := change.value] else changes
  }

  /** One turn of `mapBlobFields`: the copy is made at the first change. */
  method MapOneField(
    f: Field, refs: map<string, Ref>, copy: JsObject?, bytes: map<nat, Bytes>, ghost v: Value,
    ghost changes: map<string, Value>, ghost heap: set<object>)
    returns (copy': JsObject?, ghost heap': set<object>)
    requires f.name in refs && Shows(heap, refs[f.name], v) && MapField(Fetch(bytes), f, v).Ok?
    requires CopyFor(heap, refs, copy, changes)
    modifies copy
    ensures heap <= heap' && fresh(heap' - heap) && unchanged(heap)
    ensures copy != null ==> copy' == copy
    ensures copy == null && copy' != null ==> fresh(copy')
    ensures CopyFor(heap', refs, copy', WithChange(changes, f.name, MapField(Fetch(bytes), f, v).value))
    decreases f, 3
  {
    var mapped;
    mapped, heap' := MapFieldRef(f, refs[f.name], bytes, v, heap);
    if copy != null { CopiedMore(heap, heap', refs, copy.props, changes); }
    copy' := copy;
    if mapped != refs[f.name] {
      if copy' == null {
        copy' := new JsObject(true, refs);
      }
      ghost var w := MapField(Fetch(bytes), f, v).value.value;
      CopiedWith(heap', refs, copy'.props, changes, f.name, mapped, w);
      copy'.props := copy'.props[f.name := mapped];
    }
  }

  lemma CopiedWith(
    heap: set<object>, refs: map<string, Ref>, copy: map<string, Ref>, changes: map<string, Value>, name: string,
    r: Ref, w: Value)
    requires Copied(heap, refs, copy, changes) && name in refs && Shows(heap, r, w)
    ensures Copied(heap, refs, copy[name := r], changes[name := w]) && changes[name := w] != map[]
  {
    assert name in changes[name := w];
  }

  /** `mapBlobFields`. */
  method MapFieldsRef(fields: seq<Field>, r: Ref, bytes: map<nat, Bytes>, ghost v: Value, ghost heap: set<object>)
    returns (out: Ref, ghost heap': set<object>)
    requires Shows(heap, r, v) && IsObject(v) && MapFields(Fetch(bytes), fields, Properties(v)).Ok?
    ensures heap <= heap' && fresh(heap' - heap) && unchanged(heap)
    ensures Replaces(heap, heap', r, out, RecordChange(v, MapFields(Fetch(bytes), fields, Properties(v)).value))
    ensures out != r ==>
              out.ObjectRef? &&
              Copied(heap', PropsOf(r), out.obj.props, MapFields(Fetch(bytes), fields, Properties(v)).value)
    decreases fields, 1
  {
    ShownObject(heap, r, v);
    var copy;
    copy, heap' := CopyChanges(fields, PropsOf(r), bytes, Properties(v), heap);
    out, heap' := FinishRecord(r, copy, v, MapFields(Fetch(bytes), fields, Properties(v)).value, heap, heap');
  }

  /** The loop of `mapBlobFields`: the copy, if there is one. */
  method CopyChanges(
    fields: seq<Field>, refs: map<string, Ref>, bytes: map<nat, Bytes>, ghost props: map<string, Value>,
    ghost heap: set<object>)
    returns (copy: JsObject?, ghost heap': set<object>)
    requires ShowsProps(heap, refs, props) && MapFields(Fetch(bytes), fields, props).Ok?
    ensures heap <= heap' && fresh(heap' - heap) && unchanged(heap)
    ensures copy != null ==> fresh(copy)
    ensures CopyFor(heap', refs, copy, MapFields(Fetch(bytes), fields, props).value)
    decreases fields, 0
  {
    copy, heap' := null, heap;
    var i := 0;
    while i < |fields|
      invariant 0 <= i <= |fields|
      invariant heap <= heap' && fresh(heap' - heap) && unchanged(heap)
      invariant copy != null ==> fresh(copy)
      invariant MapFields(Fetch(bytes), fields[..i], props).Ok?
      invariant CopyFor(heap', refs, copy, MapFields(Fetch(bytes), fields[..i], props).value)
    {
      var f := fields[i];
      MapFieldsPrefix(Fetch(bytes), fields, props, i);
      if ContainsBlob(f) && f.name in refs {
        ShowsMore(heap, heap', refs[f.name], props[f.name]);
        ghost var changes := MapFields(Fetch(bytes), fields[..i], props).value;
        copy, heap' := MapOneField(f, refs, copy, bytes, props[f.name], changes, heap');
      }
      i := i + 1;
    }
    assert fields[..i] == fields;
  }

  /** `out ?? record`. */
  method FinishRecord(
    r: Ref, copy: JsObject?, ghost v: Value, ghost changes: map<string, Value>, ghost heap: set<object>,
    ghost inner: set<object>)
    returns (out: Ref, ghost heap': set<object>)
    requires Shows(heap, r, v) && IsObject(v) && heap <= inner && CopyFor(inner, PropsOf(r), copy, changes)
    ensures heap' == if copy == null then inner else inner + {copy as object}
    ensures Replaces(heap, heap', r, out, RecordChange(v, changes))
    ensures out != r ==> out == ObjectRef(copy) && Copied(heap', PropsOf(r), copy.props, changes)
  {
    if copy == null {
      return r, inner;
    }
    ShownObject(heap, r, v);
    ghost var made: object := copy;
    out, heap' := ObjectRef(copy), inner + {made};
    CopiedShows(heap, inner, PropsOf(r), Properties(v), copy.props, changes);
    ShowsNew(inner, heap', copy, Properties(v) + changes);
    CopiedMore(inner, heap', PropsOf(r), copy.props, changes);
  }

  lemma CopiedShows(
    heap: set<object>, more: set<object>, refs: map<string, Ref>, props: map<string, Value>, copy: map<string, Ref>,
    changes: map<string, Value>)
    requires ShowsProps(heap, refs, props) && Copied(more, refs, copy, changes) && heap <= more
    ensures ShowsProps(more, copy, props + changes)
  {
    forall name | name in props + changes ensures Shows(more, copy[name], (props + changes)[name]) {
      if name !in changes { ShowsMore(heap, more, copy[name], props[name]); }
    }
  }

  lemma CopiedMore(
    heap: set<object>, more: set<object>, refs: map<string, Ref>, copy: map<string, Ref>, changes: map<string, Value>)
    requires Copied(heap, refs, copy, changes) && heap <= more
    ensures Copied(more, refs, copy, changes)
  {
    forall name | name in changes ensures Shows(more, copy[name], changes[name]) {
      ShowsMore(heap, more, copy[name], changes[name]);
    }
  }

  /** One more field of `mapBlobFields`. */
  lemma MapFieldsPrefix(visit: Visitor, fields: seq<Field>, props: map<string, Value>, i: nat)
    requires MapFields(visit, fields, props).Ok? && i < |fields|
    ensures MapFields(visit, fields[..i], props).Ok? && MapFields(visit, fields[..i + 1], props).Ok?
    ensures
      var f, before := fields[i], MapFields(visit, fields[..i], props).value;
      MapFields(visit, fields[..i + 1], props).value ==
      if !ContainsBlob(f) || f.name !in props then before
      else match MapField(visit, f, props[f.name])
        case Err => before
        case Ok(None) => before
        case Ok(Some(w)) => before[f.name := w]
    ensures ContainsBlob(fields[i]) && fields[i].name in props ==> MapField(visit, fields[i], props[fields[i].name]).Ok?
  {
    PrefixSucceeds(visit, fields, props, i + 1);
    assert fields[..i + 1][..i] == fields[..i] && fields[..i + 1][i] == fields[i];
  }

  lemma {:induction false} PrefixSucceeds(visit: Visitor, fields: seq<Field>, props: map<string, Value>, i: nat)
    requires MapFields(visit, fields, props).Ok? && i <= |fields|
    ensures MapFields(visit, fields[..i], props).Ok?
    decreases |fields| - i
  {
    if i == |fields| {
      assert fields[..i] == fields;
    } else {
      PrefixSucceeds(visit, fields, props, i + 1);
      assert fields[..i + 1][..i] == fields[..i];
    }
  }

  /** The copy so far of a list. */
  ghost predicate ItemsCopied(
    heap: set<object>, refs: seq<Ref>, copy: seq<Ref>, changes: seq<Option<Value>>, i: nat)
    requires i <= |changes| == |refs|
    reads heap
  {
    && |copy| == |refs|
    && (forall j | 0 <= j < i && changes[j].Some? :: Shows(heap, copy[j], changes[j].value))
    && (forall j | 0 <= j < |refs| && (i <= j || changes[j].None?) :: copy[j] == refs[j])
  }

  ghost predicate ArrayCopyFor(heap: set<object>, refs: seq<Ref>, copy: JsArray?, changes: seq<Option<Value>>, i: nat)
    requires i <= |changes| == |refs|
    reads heap, copy
  {
    && (copy == null <==> NoneChanged(changes[..i]))
    && (copy != null ==> copy !in heap && ItemsCopied(heap, refs, copy.items, changes, i))
  }

  lemma ItemsCopiedMore(
    heap: set<object>, more: set<object>, refs: seq<Ref>, copy: seq<Ref>, changes: seq<Option<Value>>, i: nat)
    requires i <= |changes| == |refs| && ItemsCopied(heap, refs, copy, changes, i) && heap <= more
    ensures ItemsCopied(more, refs, copy, changes, i)
  {
    forall j | 0 <= j < i && changes[j].Some? ensures Shows(more, copy[j], changes[j].value) {
      ShowsMore(heap, more, copy[j], changes[j].value);
    }
  }

  /** One turn of the list case of `mapBlobField`. */
  method MapOneItem(
    item: Field, refs: seq<Ref>, i: nat, copy: JsArray?, bytes: map<nat, Bytes>, ghost v: Value,
    ghost changes: seq<Option<Value>>, ghost heap: set<object>)
    returns (copy': JsArray?, ghost heap': set<object>)
    requires i < |refs| == |changes| && Shows(heap, refs[i], v) && MapField(Fetch(bytes), item, v) == Ok(changes[i])
    requires ArrayCopyFor(heap, refs, copy, changes, i)
    modifies copy
    ensures heap <= heap' && fresh(heap' - heap) && unchanged(heap)
    ensures copy != null ==> copy' == copy
    ensures copy == null && copy' != null ==> fresh(copy')
    ensures ArrayCopyFor(heap', refs, copy', changes, i + 1)
    decreases item, 3
  {
    var mapped;
    mapped, heap' := MapFieldRef(item, refs[i], bytes, v, heap);
    if copy != null { ItemsCopiedMore(heap, heap', refs, copy.items, changes, i); }
    copy' := PutItem(refs, i, copy, mapped, changes, heap');
  }

  /** `out ??= [...value]` and `out[index] = mapped`, if the item changed. */
  method PutItem(
    refs: seq<Ref>, i: nat, copy: JsArray?, mapped: Ref, ghost changes: seq<Option<Value>>, ghost heap: set<object>)
    returns (copy': JsArray?)
    requires i < |refs| == |changes| && ArrayCopyFor(heap, refs, copy, changes, i)
    requires if changes[i].None? then mapped == refs[i] else mapped != refs[i] && Shows(heap, mapped, changes[i].value)
    modifies copy
    ensures unchanged(heap)
    ensures copy != null ==> copy' == copy
    ensures copy == null && copy' != null ==> fresh(copy')
    ensures ArrayCopyFor(heap, refs, copy', changes, i + 1)
  {
    assert changes[..i + 1] == changes[..i] + [changes[i]];
    copy' := copy;
    if mapped != refs[i] {
      if copy' == null {
        copy' := new JsArray(refs);
      }
      ItemsCopiedWith(heap, refs, copy'.items, changes, i, mapped);
      copy'.items := copy'.items[i := mapped];
    }
  }

  lemma ItemsCopiedWith(
    heap: set<object>, refs: seq<Ref>, copy: seq<Ref>, changes: seq<Option<Value>>, i: nat, r: Ref)
    requires i < |changes| == |refs| && ItemsCopied(heap, refs, copy, changes, i)
    requires changes[i].Some? && Shows(heap, r, changes[i].value)
    ensures ItemsCopied(heap, refs, copy[i := r], changes, i + 1)
  {
  }

  /** What the list case makes of an array. */
  ghost function ArrayChange(v: Value, changes: seq<Option<Value>>): Option<Value>
    requires v.Array? && |v.items| == |changes|
  {
    if NoneChanged(changes) then None else Some(Array(Merged(v.items, changes)))
  }

  /** The list case of `mapBlobField`. */
  method MapItemsRef(item: Field, r: Ref, bytes: map<nat, Bytes>, ghost v: Value, ghost heap: set<object>)
    returns (out: Ref, ghost heap': set<object>)
    requires Shows(heap, r, v) && v.Array? && MapItems(Fetch(bytes), item, v.items).Ok?
    ensures heap <= heap' && fresh(heap' - heap) && unchanged(heap)
    ensures Replaces(heap, heap', r, out, ArrayChange(v, MapItems(Fetch(bytes), item, v.items).value))
    decreases item, 4
  {
    var refs := r.arr.items;
    ghost var changes := MapItems(Fetch(bytes), item, v.items).value;
    var copy: JsArray? := null;
    heap' := heap;
    var i := 0;
    while i < |refs|
      invariant 0 <= i <= |refs|
      invariant heap <= heap' && fresh(heap' - heap) && unchanged(heap)
      invariant copy != null ==> fresh(copy)
      invariant ArrayCopyFor(heap', refs, copy, changes, i)
    {
      MappedItemAt(Fetch(bytes), item, v.items, i);
      ShowsMore(heap, heap', refs[i], v.items[i]);
      copy, heap' := MapOneItem(item, refs, i, copy, bytes, v.items[i], changes, heap');
      i := i + 1;
    }
    assert changes[..i] == changes;
    out, heap' := FinishArray(r, copy, v, changes, heap, heap');
  }

  /** `out ?? value`. */
  method FinishArray(
    r: Ref, copy: JsArray?, ghost v: Value, ghost changes: seq<Option<Value>>, ghost heap: set<object>,
    ghost inner: set<object>)
    returns (out: Ref, ghost heap': set<object>)
    requires Shows(heap, r, v) && v.Array? && heap <= inner && |changes| == |v.items|
    requires ArrayCopyFor(inner, r.arr.items, copy, changes, |changes|)
    ensures heap' == if copy == null then inner else inner + {copy as object}
    ensures Replaces(heap, heap', r, out, ArrayChange(v, changes))
  {
    assert changes[..|changes|] == changes;
    if copy == null {
      return r, inner;
    }
    ghost var made: object, merged := copy, Merged(v.items, changes);
    out, heap' := ArrayRef(copy), inner + {made};
    forall j | 0 <= j < |merged| ensures Shows(heap', copy.items[j], merged[j]) {
      if changes[j].Some? {
        ShowsMore(inner, heap', copy.items[j], changes[j].value);
      } else {
        ShowsMore(heap, heap', copy.items[j], v.items[j]);
      }
    }
  }

  // ---------------------------------------------------------------- the whole of it

  /** The blob positions of all rows. */
  function AllPositions(fields: seq<Field>, rows: seq<Value>): seq<Position>
    decreases |rows|
  {
    if rows == [] then []
    else
      var last := rows[|rows| - 1];
      AllPositions(fields, rows[..|rows| - 1]) + (if IsObject(last) then PositionsIn(fields, Properties(last)) else [])
  }

  lemma {:induction false} RowHandles(fields: seq<Field>, rows: seq<Value>, i: nat, id: nat)
    requires i < |rows| && IsObject(rows[i]) && HasHandle(PositionsIn(fields, Properties(rows[i])), id)
    ensures HasHandle(AllPositions(fields, rows), id)
    decreases |rows|
  {
    var last := |rows| - 1;
    var here := if IsObject(rows[last]) then PositionsIn(fields, Properties(rows[last])) else [];
    assert AllPositions(fields, rows) == AllPositions(fields, rows[..last]) + here;
    if i < last {
      assert rows[..last][i] == rows[i];
      RowHandles(fields, rows[..last], i, id);
    }
  }

  /** The first traversal over all rows. */
  method CollectAll(fields: seq<Field>, rows: seq<Ref>, ghost values: seq<Value>, ghost heap: set<object>)
    returns (started: seq<nat>)
    requires |rows| == |values| && forall i | 0 <= i < |rows| :: Shows(heap, rows[i], values[i])
    ensures NoDuplicates(started) && forall id :: id in started <==> HasHandle(AllPositions(fields, values), id)
  {
    started := [];
    var i := 0;
    while i < |rows|
      invariant 0 <= i <= |rows|
      invariant started == Gather([], AllPositions(fields, values[..i]))
    {
      assert values[..i + 1][..i] == values[..i];
      ShownObject(heap, rows[i], values[i]);
      if IsObjectRef(rows[i]) {
        GatherConcat([], AllPositions(fields, values[..i]), PositionsIn(fields, Properties(values[i])));
        started := CollectFields(fields, PropsOf(rows[i]), started, Properties(values[i]), heap);
      } else {
        assert AllPositions(fields, values[..i]) + [] == AllPositions(fields, values[..i]);
      }
      i := i + 1;
    }
    assert values[..i] == values;
    GatherReadsOnce([], AllPositions(fields, values));
  }

  /** What becomes of one row, when every handle has its bytes. */
  lemma RowResolves(fields: seq<Field>, rows: seq<Value>, i: nat, bytes: map<nat, Bytes>)
    requires i < |rows| && forall id | HasHandle(AllPositions(fields, rows), id) :: id in bytes
    ensures MapRow(Fetch(bytes), fields, rows[i]).Ok?
  {
    if IsObject(rows[i]) {
      forall id | HasHandle(PositionsIn(fields, Properties(rows[i])), id) ensures id in bytes {
        RowHandles(fields, rows, i, id);
      }
      EveryLookupHits(fields, Properties(rows[i]), bytes);
    }
  }

  /** One row of the second traversal. */
  method MapRowRef(fields: seq<Field>, r: Ref, bytes: map<nat, Bytes>, ghost v: Value, ghost heap: set<object>)
    returns (out: Ref, ghost heap': set<object>)
    requires Shows(heap, r, v) && MapRow(Fetch(bytes), fields, v).Ok?
    ensures heap <= heap' && fresh(heap' - heap) && unchanged(heap)
    ensures Shows(heap', out, MapRow(Fetch(bytes), fields, v).value)
    ensures if NothingChanges(fields, bytes, v) then out == r else out.ObjectRef? && out.obj !in heap
  {
    ShownObject(heap, r, v);
    if !IsObjectRef(r) {
      return r, heap;
    }
    out, heap' := MapFieldsRef(fields, r, bytes, v, heap);
    ShowsMore(heap, heap', r, v);
  }

  /** The first rows have become what the pure traversal says; a row that does not change is itself. */
  ghost predicate RowsMapped(
    heap: set<object>, fields: seq<Field>, bytes: map<nat, Bytes>, values: seq<Value>, rows: seq<Ref>, out: seq<Ref>)
    requires |out| <= |rows| == |values|
    reads heap
  {
    forall i | 0 <= i < |out| ::
      && MapRow(Fetch(bytes), fields, values[i]).Ok?
      && Shows(heap, out[i], MapRow(Fetch(bytes), fields, values[i]).value)
      && (NothingChanges(fields, bytes, values[i]) ==> out[i] == rows[i])
  }

  /** The visitor hands back everything in a row. */
  predicate NothingChanges(fields: seq<Field>, bytes: map<nat, Bytes>, row: Value) {
    IsObject(row) ==> MapFields(Fetch(bytes), fields, Properties(row)) == Ok(map[])
  }

  /** The second traversal over all rows. */
  method MapRows(
    fields: seq<Field>, rows: seq<Ref>, bytes: map<nat, Bytes>, ghost values: seq<Value>, ghost heap: set<object>)
    returns (out: seq<Ref>, ghost heap': set<object>)
    requires |rows| == |values| && forall i | 0 <= i < |rows| :: Shows(heap, rows[i], values[i])
    requires forall i | 0 <= i < |rows| :: MapRow(Fetch(bytes), fields, values[i]).Ok?
    ensures unchanged(heap) && heap <= heap' && fresh(heap' - heap)
    ensures |out| == |rows| && RowsMapped(heap', fields, bytes, values, rows, out)
  {
    out, heap' := [], heap;
    while |out| < |rows|
      invariant |out| <= |rows|
      invariant heap <= heap' && fresh(heap' - heap) && unchanged(heap)
      invariant RowsMapped(heap', fields, bytes, values, rows, out)
    {
      ghost var before, i := heap', |out|;
      ShowsMore(heap, heap', rows[i], values[i]);
      var row;
      row, heap' := MapRowRef(fields, rows[|out|], bytes, values[i], heap');
      RowsMappedMore(before, heap', fields, bytes, values, rows, out);
      RowsMappedSnoc(heap', fields, bytes, values, rows, out, row);
      out := out + [row];
    }
  }

  lemma RowsMappedSnoc(
    heap: set<object>, fields: seq<Field>, bytes: map<nat, Bytes>, values: seq<Value>, rows: seq<Ref>, out: seq<Ref>,
    row: Ref)
    requires |out| < |rows| == |values| && RowsMapped(heap, fields, bytes, values, rows, out)
    requires MapRow(Fetch(bytes), fields, values[|out|]).Ok?
    requires Shows(heap, row, MapRow(Fetch(bytes), fields, values[|out|]).value)
    requires NothingChanges(fields, bytes, values[|out|]) ==> row == rows[|out|]
    ensures RowsMapped(heap, fields, bytes, values, rows, out + [row])
  {
  }

  lemma RowsMappedMore(
    heap: set<object>, more: set<object>, fields: seq<Field>, bytes: map<nat, Bytes>, values: seq<Value>,
    rows: seq<Ref>, out: seq<Ref>)
    requires |out| <= |rows| == |values| && heap <= more && RowsMapped(heap, fields, bytes, values, rows, out)
    ensures RowsMapped(more, fields, bytes, values, rows, out)
  {
    forall i | 0 <= i < |out| ensures Shows(more, out[i], MapRow(Fetch(bytes), fields, values[i]).value) {
      ShowsMore(heap, more, out[i], MapRow(Fetch(bytes), fields, values[i]).value);
    }
  }

  /** The rows after reading: the bytes of every handle are in place, and all else is as it was. */
  ghost predicate RowsResolved(
    heap: set<object>, fields: seq<Field>, contents: nat -> Bytes, values: seq<Value>, rows: seq<Ref>, out: seq<Ref>,
    after: seq<Value>)
    reads heap
  {
    && |out| == |after| == |rows| == |values|
    && (forall i | 0 <= i < |out| :: Shows(heap, out[i], after[i]))
    && (forall i | 0 <= i < |out| :: ResolvedRow(fields, values[i], after[i], contents))
    && (forall i | 0 <= i < |out| :: NoHandleIn(fields, values[i]) ==> out[i] == rows[i])
  }

  ghost predicate NoHandleIn(fields: seq<Field>, row: Value) {
    IsObject(row) ==> forall id :: !HasHandle(PositionsIn(fields, Properties(row)), id)
  }

  /** What the pure traversal says, in terms of the rows and the contents of the handles alone. */
  lemma MappedIsResolved(
    heap: set<object>, fields: seq<Field>, bytes: map<nat, Bytes>, contents: nat -> Bytes, values: seq<Value>,
    rows: seq<Ref>, out: seq<Ref>) returns (after: seq<Value>)
    requires |out| == |rows| == |values| && RowsMapped(heap, fields, bytes, values, rows, out)
    requires DistinctFields(fields) && ReadFrom(bytes, contents)
    ensures RowsResolved(heap, fields, contents, values, rows, out, after)
  {
    after := seq(|values|, i requires 0 <= i < |values| =>
      assert MapRow(Fetch(bytes), fields, values[i]).Ok?; MapRow(Fetch(bytes), fields, values[i]).value);
    forall i | 0 <= i < |out|
      ensures ResolvedRow(fields, values[i], after[i], contents)
      ensures NoHandleIn(fields, values[i]) ==> out[i] == rows[i]
    {
      RowIsResolved(fields, values[i], bytes, contents);
      if NoHandleIn(fields, values[i]) { UntouchedRow(fields, values[i], bytes); }
    }
  }

  /** A row without a handle is handed back. */
  lemma UntouchedRow(fields: seq<Field>, row: Value, bytes: map<nat, Bytes>)
    requires NoHandleIn(fields, row)
    ensures NothingChanges(fields, bytes, row) && MapRow(Fetch(bytes), fields, row) == Ok(row)
  {
    if IsObject(row) {
      var ps := PositionsIn(fields, Properties(row));
      forall p | p in ps ensures Fetched(p.value, bytes) == Ok(None) {
        if BlobToRead(p.value).Some? { assert HasHandle(ps, BlobToRead(p.value).value); }
      }
      NothingToDoIn(Fetch(bytes), fields, Properties(row));
    }
  }

  /**
   * `resolveBlobInputs`: `contents` is what reading each handle gives. Every distinct handle is read
   * once. Each row comes back with the bytes in place of its handles, as the same object if it has
   * none and as a new one otherwise. No object that was there before has changed.
   */
  method ResolveBlobInputs(
    fields: seq<Field>, rows: seq<Ref>, contents: nat -> Bytes, ghost values: seq<Value>, ghost heap: set<object>)
    returns (out: seq<Ref>, started: seq<nat>, ghost bytes: map<nat, Bytes>, ghost after: seq<Value>,
             ghost heap': set<object>)
    requires |rows| == |values| && forall i | 0 <= i < |rows| :: Shows(heap, rows[i], values[i])
    ensures unchanged(heap) && heap <= heap' && fresh(heap' - heap)
    ensures NoDuplicates(started) && forall id :: id in started <==> HasHandle(AllPositions(fields, values), id)
    ensures bytes.Keys == (set id | id in started) && forall id | id in started :: bytes[id] == contents(id)
    ensures |out| == |rows| && RowsMapped(heap', fields, bytes, values, rows, out)
    ensures DistinctFields(fields) ==> RowsResolved(heap', fields, contents, values, rows, out, after)
    ensures started == [] ==> out == rows
  {
    started := CollectAll(fields, rows, values, heap);
    var read := map id | id in started :: contents(id);
    bytes := read;
    if started == [] {
      NothingToRead(fields, values, bytes);
      out, heap' := rows, heap;
    } else {
      forall i | 0 <= i < |rows| ensures MapRow(Fetch(bytes), fields, values[i]).Ok? {
        RowResolves(fields, values, i, bytes);
      }
      out, heap' := MapRows(fields, rows, read, values, heap);
    }
    after := [];
    if DistinctFields(fields) {
      after := MappedIsResolved(heap', fields, bytes, contents, values, rows, out);
    }
  }

  /** Without a handle nothing changes. */
  lemma NothingToRead(fields: seq<Field>, rows: seq<Value>, bytes: map<nat, Bytes>)
    requires forall id :: !HasHandle(AllPositions(fields, rows), id)
    ensures forall i | 0 <= i < |rows| :: MapRow(Fetch(bytes), fields, rows[i]) == Ok(rows[i])
  {
    forall i | 0 <= i < |rows| ensures MapRow(Fetch(bytes), fields, rows[i]) == Ok(rows[i]) {
      if IsObject(rows[i]) {
        forall id ensures !HasHandle(PositionsIn(fields, Properties(rows[i])), id) {
          if HasHandle(PositionsIn(fields, Properties(rows[i])), id) { RowHandles(fields, rows, i, id); }
        }
      }
      UntouchedRow(fields, rows[i], bytes);
    }
  }
}
