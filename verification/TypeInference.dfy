/** The type, if any, that a single value suggests for its column. */
module TypeInference {
  import opened Values
  import opened ArrowTypes

  datatype Options = Options(dictionaryEncodeStrings: bool, vectorColumns: map<string, DataType>)

  function ToLower(s: string): (r: string)
    ensures |r| == |s|
  {
    seq(|s|, i requires 0 <= i < |s| => if 'A' <= s[i] <= 'Z' then s[i] - 'A' + 'a' else s[i])
  }

  predicate Includes(s: string, part: string) {
    part <= s || (s != [] && Includes(s[1..], part))
  }

  predicate NameSuggestsVectorColumn(name: string) {
    Includes(ToLower(name), "vector") || Includes(ToLower(name), "embedding")
  }

  /** Nulls and lists of such values, which decide no type. */
  predicate IsDeferred(v: Value) {
    IsNullish(v) || (v.Array? && forall i | 0 <= i < |v.items| :: IsDeferred(v.items[i]))
  }

  /** `deferredValueMatchesType`. */
  predicate DeferredMatches(v: Value, t: DataType)
    decreases v
  {
    if IsNullish(v) then true
    else if !v.Array? then false
    else match t
      case List(item) => forall i | 0 <= i < |v.items| :: DeferredMatches(v.items[i], item.typ)
      case FixedSizeList(size, item) =>
        && |v.items| == size
        && forall i | 0 <= i < |v.items| :: DeferredMatches(v.items[i], item.typ)
      case _ => false
  }

  function Item(t: DataType): Field {
    Field("item", t, true, map[])
  }

  /**
   * `inferType`. `id` is what the dictionary constructor draws from its global counter while
   * this value is looked at.
   */
  function InferType(opts: Options, v: Value, path: Path, id: nat): Option<DataType>
    requires path != []
    decreases v, 0
  {
    match v
    case BigInt(_) => Some(INT64)
    case Number(_) => Some(FLOAT64)
    case Text(_) => Some(if opts.dictionaryEncodeStrings then Dictionary(id, UTF8, INT32, false) else UTF8)
    case Boolean(_) => Some(BOOL)
    case Buffer(_) => Some(BINARY)
    case Uint8Array(bytes) => Some(FixedSizeList(|bytes|, Item(UINT8)))
    case TypedArray(element, length) =>
      if element.None? then None else Some(FixedSizeList(length, Item(Prim(element.value, 0))))
    case Array(items) =>
      if items == [] then None
      else if |path| == 1 && path[0] in opts.vectorColumns then
        Some(FixedSizeList(|items|, Item(opts.vectorColumns[path[0]])))
      else (
        match ItemType(opts, items, path, id)
        case None => None
        case Some(t) =>
          Some(if NameSuggestsVectorColumn(path[|path| - 1])
               then FixedSizeList(|items|, Item(FLOAT32))
               else List(Item(t))))
    case _ => None
  }

  /** The type of the first item that has one. */
  function FirstType(opts: Options, items: seq<Value>, path: Path, id: nat): Option<DataType>
    requires path != []
    decreases items, 0
  {
    if items == [] then None
    else
      var t := InferType(opts, items[0], path, id);
      if t.Some? then t else FirstType(opts, items[1..], path, id)
  }

  /** Whether a value of a column agrees with the type chosen for it. */
  predicate Agrees(opts: Options, v: Value, path: Path, id: nat, t: DataType)
    requires path != []
    decreases v, 1
  {
    match InferType(opts, v, path, id)
    case Some(u) => TypesEqual(t, u)
    case None => DeferredMatches(v, t)
  }

  /**
   * What `inferArrayItemType` decides: the first type found, provided every item agrees with
   * it. `SchemaInferrer.InferArrayItemType` is the loop.
   */
  function ItemType(opts: Options, items: seq<Value>, path: Path, id: nat): Option<DataType>
    requires path != []
    decreases items, 1
  {
    var t := FirstType(opts, items, path, id);
    if t.Some? && forall i | 0 <= i < |items| :: Agrees(opts, items[i], path, id, t.value) then t else None
  }

  /** `assertSupportedValue` does not throw. */
  predicate Supported(v: Value) {
    match v
    case Array(items) => forall i | 0 <= i < |items| :: Supported(items[i])
    case Record(fields) => fields != map[] && forall k | k in fields :: Supported(fields[k])
    case Instance(_) => false
    case Url(_) => false
    case ArrayBuffer(_) => false
    case BlobHandle(_) => false
    case _ => true
  }

  lemma {:induction false} MatchesRespectsEquality(v: Value, t: DataType, u: DataType)
    requires TypesEqual(t, u)
    ensures DeferredMatches(v, t) <==> DeferredMatches(v, u)
    decreases v
  {
    if v.Array? && (t.List? || t.FixedSizeList?) {
      forall i | 0 <= i < |v.items|
        ensures DeferredMatches(v.items[i], t.valueField.typ) <==> DeferredMatches(v.items[i], u.valueField.typ)
      {
        MatchesRespectsEquality(v.items[i], t.valueField.typ, u.valueField.typ);
      }
    }
  }

  lemma {:induction false} MatchingIsDeferred(v: Value, t: DataType)
    requires DeferredMatches(v, t)
    ensures IsDeferred(v)
    decreases v
  {
    if v.Array? {
      forall i | 0 <= i < |v.items| ensures IsDeferred(v.items[i]) {
        MatchingIsDeferred(v.items[i], t.valueField.typ);
      }
    }
  }

  /** Two inferences of one value differ at most in dictionary ids. */
  lemma {:induction false} InferTypeUpToId(opts: Options, v: Value, path: Path, id1: nat, id2: nat)
    requires path != []
    ensures InferType(opts, v, path, id1).Some? <==> InferType(opts, v, path, id2).Some?
    ensures InferType(opts, v, path, id1).Some? ==>
              TypesEqual(InferType(opts, v, path, id1).value, InferType(opts, v, path, id2).value)
    decreases v, 1
  {
    if InferType(opts, v, path, id1).Some? { TypesEqualReflexive(InferType(opts, v, path, id1).value); }
    if v.Array? && v.items != [] && !(|path| == 1 && path[0] in opts.vectorColumns) {
      ItemTypeUpToId(opts, v.items, path, id1, id2);
      if ItemType(opts, v.items, path, id1).None? { ItemTypeUpToId(opts, v.items, path, id2, id1); }
    }
  }

  lemma {:induction false} FirstTypeUpToId(opts: Options, items: seq<Value>, path: Path, id1: nat, id2: nat)
    requires path != []
    ensures FirstType(opts, items, path, id1).Some? ==>
              && FirstType(opts, items, path, id2).Some?
              && TypesEqual(FirstType(opts, items, path, id1).value, FirstType(opts, items, path, id2).value)
    decreases items, 0
  {
    if items != [] {
      InferTypeUpToId(opts, items[0], path, id1, id2);
      FirstTypeUpToId(opts, items[1..], path, id1, id2);
    }
  }

  lemma {:induction false} ItemTypeUpToId(opts: Options, items: seq<Value>, path: Path, id1: nat, id2: nat)
    requires path != []
    ensures ItemType(opts, items, path, id1).Some? ==>
              && ItemType(opts, items, path, id2).Some?
              && TypesEqual(ItemType(opts, items, path, id1).value, ItemType(opts, items, path, id2).value)
    decreases items, 1
  {
    if ItemType(opts, items, path, id1).Some? {
      var t := FirstType(opts, items, path, id1).value;
      FirstTypeUpToId(opts, items, path, id1, id2);
      var u := FirstType(opts, items, path, id2).value;
      forall i | 0 <= i < |items| ensures Agrees(opts, items[i], path, id2, u) {
        assert Agrees(opts, items[i], path, id1, t);
        InferTypeUpToId(opts, items[i], path, id1, id2);
        AgreesUpTo(opts, items[i], path, id1, id2, t, u);
      }
    }
  }

  /** Agreement does not look at dictionary ids or at which of two equal types it is given. */
  lemma AgreesUpTo(opts: Options, v: Value, path: Path, id1: nat, id2: nat, t: DataType, u: DataType)
    requires path != []
    requires InferType(opts, v, path, id1).Some? <==> InferType(opts, v, path, id2).Some?
    requires InferType(opts, v, path, id1).Some? ==>
               TypesEqual(InferType(opts, v, path, id1).value, InferType(opts, v, path, id2).value)
    requires TypesEqual(t, u)
    requires Agrees(opts, v, path, id1, t)
    ensures Agrees(opts, v, path, id2, u)
  {
    match InferType(opts, v, path, id1)
    case None => MatchesRespectsEquality(v, t, u);
    case Some(a) =>
      var b := InferType(opts, v, path, id2).value;
      TypesEqualSymmetric(t, u);
      TypesEqualTransitive(u, t, a);
      TypesEqualTransitive(u, a, b);
  }

  /** The number of elements of a list-like value. */
  function ElementCount(v: Value): Option<nat> {
    match v
    case Array(items) => Some(|items|)
    case Uint8Array(bytes) => Some(|bytes|)
    case TypedArray(_, length) => Some(length)
    case _ => None
  }

  /** A value that agrees with a fixed-size list type is null or has exactly that many elements. */
  lemma AgreesMeansFixedSize(opts: Options, v: Value, path: Path, id: nat, t: DataType)
    requires path != [] && t.FixedSizeList?
    requires Agrees(opts, v, path, id, t)
    ensures IsNullish(v) || ElementCount(v) == Some(t.listSize)
  {
    match InferType(opts, v, path, id)
    case None =>
    case Some(u) => assert u.FixedSizeList? && u.listSize == t.listSize;
  }
}
