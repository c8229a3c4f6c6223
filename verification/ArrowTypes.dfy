/** Arrow types and fields, and the comparison that schema inference uses on them. */
module ArrowTypes {
  import opened Values

  /**
   * `Prim` stands for every type without children. Arrow's `compareTypes` is an equivalence
   * relation on those; `cls` names the equivalence class and `rep` tells two members apart.
   * Two dictionaries made by separate constructor calls differ in `id`.
   */
  datatype DataType =
    | Prim(cls: nat, rep: nat)
    | Dictionary(id: nat, dictionary: DataType, indices: DataType, isOrdered: bool)
    | List(valueField: Field)
    | FixedSizeList(listSize: nat, valueField: Field)
    | Struct(children: seq<Field>)

  datatype Field = Field(name: string, typ: DataType, nullable: bool, metadata: map<string, string>)

  const INT64 := Prim(0, 0)
  const FLOAT64 := Prim(1, 0)
  const FLOAT32 := Prim(2, 0)
  const UTF8 := Prim(3, 0)
  const BOOL := Prim(4, 0)
  const BINARY := Prim(5, 0)
  const INT32 := Prim(6, 0)
  const UINT8 := Prim(7, 0)
  const LARGE_BINARY := Prim(8, 0)
  const UINT64 := Prim(9, 0)

  /** Arrow's `compareTypes` where `TypesEqual` falls through to it. */
  predicate CompareTypes(a: DataType, b: DataType) {
    if a.Prim? then b.Prim? && a.cls == b.cls else a == b
  }

  /** `inferredTypesEqual`: ignores dictionary ids and the metadata of item fields. */
  predicate TypesEqual(a: DataType, b: DataType)
    decreases a
  {
    match a
    case Dictionary(_, dictionary, indices, isOrdered) =>
      && b.Dictionary?
      && isOrdered == b.isOrdered
      && TypesEqual(indices, b.indices)
      && TypesEqual(dictionary, b.dictionary)
    case List(item) =>
      && b.List?
      && item.name == b.valueField.name
      && item.nullable == b.valueField.nullable
      && TypesEqual(item.typ, b.valueField.typ)
    case FixedSizeList(size, item) =>
      && b.FixedSizeList?
      && size == b.listSize
      && item.name == b.valueField.name
      && item.nullable == b.valueField.nullable
      && TypesEqual(item.typ, b.valueField.typ)
    case _ => CompareTypes(a, b)
  }

  lemma {:induction false} TypesEqualReflexive(a: DataType)
    ensures TypesEqual(a, a)
    decreases a
  {
    match a
    case Dictionary(_, d, i, _) => TypesEqualReflexive(d); TypesEqualReflexive(i);
    case List(f) => TypesEqualReflexive(f.typ);
    case FixedSizeList(_, f) => TypesEqualReflexive(f.typ);
    case _ =>
  }

  lemma {:induction false} TypesEqualSymmetric(a: DataType, b: DataType)
    requires TypesEqual(a, b)
    ensures TypesEqual(b, a)
    decreases a
  {
    match a
    case Dictionary(_, d, i, _) => TypesEqualSymmetric(d, b.dictionary); TypesEqualSymmetric(i, b.indices);
    case List(f) => TypesEqualSymmetric(f.typ, b.valueField.typ);
    case FixedSizeList(_, f) => TypesEqualSymmetric(f.typ, b.valueField.typ);
    case _ =>
  }

  lemma {:induction false} TypesEqualTransitive(a: DataType, b: DataType, c: DataType)
    requires TypesEqual(a, b) && TypesEqual(b, c)
    ensures TypesEqual(a, c)
    decreases a
  {
    match a
    case Dictionary(_, d, i, _) =>
      TypesEqualTransitive(d, b.dictionary, c.dictionary);
      TypesEqualTransitive(i, b.indices, c.indices);
    case List(f) => TypesEqualTransitive(f.typ, b.valueField.typ, c.valueField.typ);
    case FixedSizeList(_, f) => TypesEqualTransitive(f.typ, b.valueField.typ, c.valueField.typ);
    case _ =>
  }

  /** A type with everything erased that the comparison does not look at. */
  function Canonical(t: DataType): DataType
    decreases t
  {
    match t
    case Prim(cls, _) => Prim(cls, 0)
    case Dictionary(_, dictionary, indices, isOrdered) =>
      Dictionary(0, Canonical(dictionary), Canonical(indices), isOrdered)
    case List(item) => List(Field(item.name, Canonical(item.typ), item.nullable, map[]))
    case FixedSizeList(size, item) =>
      FixedSizeList(size, Field(item.name, Canonical(item.typ), item.nullable, map[]))
    case Struct(_) => t
  }

  /** Inferred types are equal if and only if they differ only in dictionary ids and such. */
  lemma {:induction false} TypesEqualExactly(a: DataType, b: DataType)
    ensures TypesEqual(a, b) <==> Canonical(a) == Canonical(b)
    decreases a
  {
    match a
    case Dictionary(_, d, i, _) =>
      if b.Dictionary? { TypesEqualExactly(d, b.dictionary); TypesEqualExactly(i, b.indices); }
    case List(f) => if b.List? { TypesEqualExactly(f.typ, b.valueField.typ); }
    case FixedSizeList(_, f) => if b.FixedSizeList? { TypesEqualExactly(f.typ, b.valueField.typ); }
    case _ =>
  }

  /** Sibling names are distinct, at every depth reached through structs. */
  ghost predicate DistinctNames(fields: seq<Field>)
    decreases fields
  {
    && (forall i, j | 0 <= i < j < |fields| :: fields[i].name != fields[j].name)
    && (forall i | 0 <= i < |fields| && fields[i].typ.Struct? :: DistinctNames(fields[i].typ.children))
  }

  /** `fields.find(f => f.name === name)`. */
  function Find(fields: seq<Field>, name: string): (r: Option<Field>)
    ensures r.Some? ==> r.value in fields && r.value.name == name
    ensures r.None? ==> forall f | f in fields :: f.name != name
    decreases |fields|
  {
    if fields == [] then None
    else if fields[0].name == name then Some(fields[0])
    else Find(fields[1..], name)
  }

  /** `fieldAtPath`: the field a nonempty path names, going down through structs only. */
  function FieldAtPath(fields: seq<Field>, path: Path): Option<Field>
    requires path != []
    decreases |path|
  {
    match Find(fields, path[0])
    case None => None
    case Some(field) =>
      if |path| == 1 then Some(field)
      else if field.typ.Struct? then FieldAtPath(field.typ.children, path[1..])
      else None
  }

  lemma {:induction false} FindUnique(fields: seq<Field>, i: nat)
    requires i < |fields|
    requires forall j, k | 0 <= j < k < |fields| :: fields[j].name != fields[k].name
    ensures Find(fields, fields[i].name) == Some(fields[i])
    decreases |fields|
  {
    if i > 0 { FindUnique(fields[1..], i - 1); }
  }

  /** One more step of a path: the child of a struct field. */
  lemma {:induction false} FieldBelow(fields: seq<Field>, path: Path, name: string)
    requires path != []
    ensures FieldAtPath(fields, path + [name]) ==
            match FieldAtPath(fields, path)
            case None => None
            case Some(f) => if f.typ.Struct? then Find(f.typ.children, name) else None
    decreases |path|
  {
    var longer := path + [name];
    assert longer[0] == path[0] && longer[1..] == path[1..] + [name];
    match Find(fields, path[0])
    case None =>
    case Some(field) =>
      if |path| == 1 {
        assert longer[1..] == [name];
      } else if field.typ.Struct? {
        FieldBelow(field.typ.children, path[1..], name);
      }
  }

  /** A path that reaches a field goes through structs all the way. */
  lemma {:induction false} FieldAbove(fields: seq<Field>, path: Path, k: nat)
    requires 0 < k < |path|
    requires FieldAtPath(fields, path).Some?
    ensures FieldAtPath(fields, path[..k]).Some?
    ensures FieldAtPath(fields, path[..k]).value.typ.Struct?
    decreases k
  {
    if k > 1 {
      var sub := Find(fields, path[0]).value.typ.children;
      FieldAbove(sub, path[1..], k - 1);
      assert path[1..][..k - 1] == path[..k][1..];
    }
  }
}
