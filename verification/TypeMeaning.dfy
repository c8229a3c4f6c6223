/**
 * What it means for a value to belong in a column of some type, said without inferring anything.
 * The inferred types are exactly the ones that hold their values.
 */
module TypeMeaning {
  import opened Values
  import opened ArrowTypes
  import opened TypeInference

  /** A column that the caller has named as a vector column. */
  predicate IsNamedVector(opts: Options, path: Path) {
    |path| == 1 && path[0] in opts.vectorColumns
  }

  /** The item field of an inferred list. */
  function ItemOf(t: DataType): Field {
    Field("item", t, true, map[])
  }

  /**
   * A column of type `t`, without dictionary ids, can hold a value. Nulls go anywhere, and lists
   * with nothing but nulls in them into any list of a fitting size. A named vector column has the
   * item type it was given, and lists in a column that sounds like a vector become vectors of
   * 32-bit floats if their items are of one type.
   */
  ghost predicate Holds(opts: Options, v: Value, path: Path, t: DataType)
    requires path != []
    decreases v
  {
    match v
    case Undefined => true
    case Null => true
    case BigInt(_) => t == INT64
    case Number(_) => t == FLOAT64
    case Text(_) => t == if opts.dictionaryEncodeStrings then Dictionary(0, UTF8, INT32, false) else UTF8
    case Boolean(_) => t == BOOL
    case Buffer(_) => t == BINARY
    case Uint8Array(bytes) => t == FixedSizeList(|bytes|, ItemOf(UINT8))
    case TypedArray(element, length) => element.Some? && t == FixedSizeList(length, ItemOf(Prim(element.value, 0)))
    case Array(items) =>
      if IsNamedVector(opts, path) && items != [] then
        t == FixedSizeList(|items|, ItemOf(Canonical(opts.vectorColumns[path[0]])))
      else if IsDeferred(v) then
        (t.List? || (t.FixedSizeList? && t.listSize == |items|)) && AllHold(opts, items, path, t.valueField.typ)
      else if NameSuggestsVectorColumn(path[|path| - 1]) then
        t == FixedSizeList(|items|, ItemOf(FLOAT32)) && exists u :: AllHold(opts, items, path, Canonical(u))
      else
        t.List? && t.valueField == ItemOf(t.valueField.typ) && AllHold(opts, items, path, t.valueField.typ)
    case _ => false
  }

  ghost predicate AllHold(opts: Options, items: seq<Value>, path: Path, t: DataType)
    requires path != []
    decreases items
  {
    forall i | 0 <= i < |items| :: Holds(opts, items[i], path, t)
  }

  // ---------------------------------------------------------------- names of vector columns

  /** A word in small letters stands at a position of a name, whatever the case there. */
  predicate StandsAt(name: string, word: string, i: nat) {
    i + |word| <= |name| &&
    forall j | 0 <= j < |word| ::
      name[i + j] == word[j] || ('A' <= name[i + j] <= 'Z' && name[i + j] - 'A' + 'a' == word[j])
  }

  /** Names with `vector` or `embedding` in them, and no others, suggest a vector column. */
  lemma SuggestsExactly(name: string)
    ensures NameSuggestsVectorColumn(name) <==>
            exists i: nat :: StandsAt(name, "vector", i) || StandsAt(name, "embedding", i)
  {
    IncludesExactly(name, "vector");
    IncludesExactly(name, "embedding");
  }

  lemma {:induction false} IncludesExactly(name: string, word: string)
    requires forall j | 0 <= j < |word| :: !('A' <= word[j] <= 'Z')
    ensures Includes(ToLower(name), word) <==> exists i: nat :: StandsAt(name, word, i)
    decreases |name|
  {
    var s := ToLower(name);
    assert word <= s <==> StandsAt(name, word, 0) by {
      if word <= s { assert forall j | 0 <= j < |word| :: s[j] == word[j]; }
    }
    if name != [] {
      assert s[1..] == ToLower(name[1..]);
      IncludesExactly(name[1..], word);
      forall i: nat ensures StandsAt(name, word, i + 1) <==> StandsAt(name[1..], word, i) {}
      forall i: nat | StandsAt(name, word, i) ensures i == 0 || StandsAt(name[1..], word, i - 1) {}
    }
  }

  // ---------------------------------------------------------------- deferred values

  /** Lists in lists, `n` deep. */
  function Nested(n: nat): DataType {
    if n == 0 then UTF8 else List(Item(Nested(n - 1)))
  }

  /** How deep the lists of a value are. */
  function Depth(v: Value): nat
    decreases v
  {
    if v.Array? then 1 + ItemDepth(v.items) else 0
  }

  function ItemDepth(items: seq<Value>): (n: nat)
    ensures forall i | 0 <= i < |items| :: Depth(items[i]) <= n
    decreases items
  {
    if items == [] then 0
    else
      var (first, rest) := (Depth(items[0]), ItemDepth(items[1..]));
      assert items == [items[0]] + items[1..];
      if first < rest then rest else first
  }

  /** Every deferred value matches some type, and only deferred values match one without having one. */
  lemma DeferredExactly(v: Value)
    ensures IsDeferred(v) ==> exists t :: DeferredMatches(v, t)
    ensures (exists t :: DeferredMatches(v, t)) ==> IsDeferred(v)
  {
    if IsDeferred(v) {
      DeferredMatchesNested(v, Depth(v));
      assert DeferredMatches(v, Nested(Depth(v)));
    } else {
      forall t ensures !DeferredMatches(v, t) {
        if DeferredMatches(v, t) { MatchingIsDeferred(v, t); }
      }
    }
  }

  lemma {:induction false} DeferredMatchesNested(v: Value, n: nat)
    requires IsDeferred(v) && Depth(v) <= n
    ensures DeferredMatches(v, Nested(n))
    decreases v
  {
    if v.Array? {
      forall i | 0 <= i < |v.items| ensures DeferredMatches(v.items[i], Nested(n - 1)) {
        DeferredMatchesNested(v.items[i], n - 1);
      }
    }
  }

  /** A list in a named vector column has a type even if all its items are null. */
  predicate IsTypedByName(opts: Options, v: Value, path: Path) {
    IsNamedVector(opts, path) && v.Array? && v.items != []
  }

  /** Other deferred values have no type. */
  lemma {:induction false} DeferredHasNoType(opts: Options, v: Value, path: Path, id: nat)
    requires path != [] && IsDeferred(v) && !IsTypedByName(opts, v, path)
    ensures InferType(opts, v, path, id).None?
    decreases v
  {
    if v.Array? && v.items != [] {
      FirstTyped(opts, v.items, path, id);
      forall i | 0 <= i < |v.items| ensures InferType(opts, v.items[i], path, id).None? {
        DeferredHasNoType(opts, v.items[i], path, id);
      }
    }
  }

  /** The first type found is the type of some item; there is none if no item has a type. */
  lemma {:induction false} FirstTyped(opts: Options, items: seq<Value>, path: Path, id: nat)
    requires path != []
    ensures
      var t := FirstType(opts, items, path, id);
      if t.Some? then exists i | 0 <= i < |items| :: InferType(opts, items[i], path, id) == t
      else forall i | 0 <= i < |items| :: InferType(opts, items[i], path, id).None?
    decreases |items|
  {
    if items != [] {
      FirstTyped(opts, items[1..], path, id);
      assert items == [items[0]] + items[1..];
      assert InferType(opts, items[0], path, id).Some? ==>
          InferType(opts, items[0], path, id) == FirstType(opts, items, path, id);
    }
  }

  lemma {:induction false} DeferredHolds(opts: Options, v: Value, path: Path, t: DataType)
    requires path != [] && IsDeferred(v) && !IsTypedByName(opts, v, path)
    ensures DeferredMatches(v, t) <==> Holds(opts, v, path, Canonical(t))
    decreases v
  {
    if v.Array? && (t.List? || t.FixedSizeList?) {
      forall i | 0 <= i < |v.items|
        ensures DeferredMatches(v.items[i], t.valueField.typ) <==>
                Holds(opts, v.items[i], path, Canonical(t.valueField.typ))
      {
        DeferredHolds(opts, v.items[i], path, t.valueField.typ);
      }
    }
  }

  // ---------------------------------------------------------------- inferred types are the ones that hold

  /** A value agrees with the type of a column if and only if the type can hold it. */
  lemma {:induction false} AgreesExactly(opts: Options, v: Value, path: Path, id: nat, t: DataType)
    requires path != []
    ensures Agrees(opts, v, path, id, t) <==> Holds(opts, v, path, Canonical(t))
    decreases v, 1
  {
    if IsTypedByName(opts, v, path) {
      TypesEqualExactly(t, InferType(opts, v, path, id).value);
    } else if IsDeferred(v) {
      DeferredHasNoType(opts, v, path, id);
      DeferredHolds(opts, v, path, t);
    } else if v.Array? {
      ListAgreesExactly(opts, v, path, id, t);
    } else {
      AtomAgreesExactly(opts, v, path, id, t);
    }
  }

  lemma AtomAgreesExactly(opts: Options, v: Value, path: Path, id: nat, t: DataType)
    requires path != [] && !v.Array? && !IsDeferred(v)
    ensures Agrees(opts, v, path, id, t) <==> Holds(opts, v, path, Canonical(t))
  {
    NotDeferred(v, t);
    if InferType(opts, v, path, id).Some? { TypesEqualExactly(t, InferType(opts, v, path, id).value); }
  }

  lemma NotDeferred(v: Value, t: DataType)
    ensures !IsDeferred(v) ==> !DeferredMatches(v, t)
  {
    if DeferredMatches(v, t) { MatchingIsDeferred(v, t); }
  }

  lemma {:induction false} ListAgreesExactly(opts: Options, v: Value, path: Path, id: nat, t: DataType)
    requires path != [] && v.Array? && !IsDeferred(v) && !IsTypedByName(opts, v, path)
    ensures Agrees(opts, v, path, id, t) <==> Holds(opts, v, path, Canonical(t))
    decreases v, 0
  {
    NotDeferred(v, t);
    var found := ItemType(opts, v.items, path, id);
    if found.Some? { AllAgreeExactly(opts, v, path, id, found.value); }
    if NameSuggestsVectorColumn(path[|path| - 1]) {
      if found.Some? { TypesEqualExactly(t, FixedSizeList(|v.items|, Item(FLOAT32))); }
      forall u | AllHold(opts, v.items, path, Canonical(u)) ensures found.Some? {
        AllAgreeExactly(opts, v, path, id, u);
        ItemTypeIsShared(opts, v, path, id, u);
      }
    } else {
      if found.Some? { TypesEqualExactly(t, List(Item(found.value))); }
      if t.List? {
        AllAgreeExactly(opts, v, path, id, t.valueField.typ);
        if AllAgree(opts, v.items, path, id, t.valueField.typ) {
          ItemTypeIsShared(opts, v, path, id, t.valueField.typ);
          TypesEqualExactly(t.valueField.typ, found.value);
        }
      }
    }
  }

  predicate AllAgree(opts: Options, items: seq<Value>, path: Path, id: nat, t: DataType)
    requires path != []
  {
    forall i | 0 <= i < |items| :: Agrees(opts, items[i], path, id, t)
  }

  lemma {:induction false} AllAgreeExactly(opts: Options, v: Value, path: Path, id: nat, t: DataType)
    requires path != [] && v.Array?
    ensures AllAgree(opts, v.items, path, id, t) <==> AllHold(opts, v.items, path, Canonical(t))
    decreases v, 0, 0
  {
    forall i | 0 <= i < |v.items|
      ensures Agrees(opts, v.items[i], path, id, t) <==> Holds(opts, v.items[i], path, Canonical(t))
    {
      AgreesExactly(opts, v.items[i], path, id, t);
    }
  }

  /** If all items agree with a type and some item is typed, the items have that type. */
  lemma ItemTypeIsShared(opts: Options, v: Value, path: Path, id: nat, t: DataType)
    requires path != [] && v.Array? && !IsDeferred(v) && AllAgree(opts, v.items, path, id, t)
    ensures ItemType(opts, v.items, path, id).Some? && TypesEqual(t, ItemType(opts, v.items, path, id).value)
  {
    var k :| 0 <= k < |v.items| && !IsDeferred(v.items[k]);
    NotDeferred(v.items[k], t);
    assert Agrees(opts, v.items[k], path, id, t);
    FirstTyped(opts, v.items, path, id);
    var u := FirstType(opts, v.items, path, id).value;
    var j :| 0 <= j < |v.items| && InferType(opts, v.items[j], path, id) == Some(u);
    assert Agrees(opts, v.items[j], path, id, t);
    forall i | 0 <= i < |v.items| ensures Agrees(opts, v.items[i], path, id, u) {
      assert Agrees(opts, v.items[i], path, id, t);
      InferTypeUpToId(opts, v.items[i], path, id, id);
      AgreesUpTo(opts, v.items[i], path, id, id, t, u);
    }
  }

  /** A value with a type is held by it, and by no other; a value that nothing holds has none. */
  lemma InferTypeExactly(opts: Options, v: Value, path: Path, id: nat)
    requires path != []
    ensures
      match InferType(opts, v, path, id)
      case Some(t) => forall u :: Holds(opts, v, path, Canonical(u)) <==> Canonical(u) == Canonical(t)
      case None => IsDeferred(v) || forall u :: !Holds(opts, v, path, Canonical(u))
  {
    forall u ensures Agrees(opts, v, path, id, u) <==> Holds(opts, v, path, Canonical(u)) {
      AgreesExactly(opts, v, path, id, u);
    }
    match InferType(opts, v, path, id)
    case Some(t) =>
      forall u ensures TypesEqual(u, t) <==> Canonical(u) == Canonical(t) { TypesEqualExactly(u, t); }
    case None =>
      forall u ensures !IsDeferred(v) ==> !Agrees(opts, v, path, id, u) { NotDeferred(v, u); }
  }

  /** The types of the leaves are told apart. */
  lemma LeafTypesDiffer()
    ensures var types := [INT64, FLOAT64, FLOAT32, UTF8, BOOL, BINARY, INT32, UINT8, LARGE_BINARY, UINT64];
            forall i, j | 0 <= i < j < |types| :: !TypesEqual(types[i], types[j])
  {
    var types := [INT64, FLOAT64, FLOAT32, UTF8, BOOL, BINARY, INT32, UINT8, LARGE_BINARY, UINT64];
    assert forall i | 0 <= i < |types| :: types[i] == Prim(i, 0);
  }

  /** Read from the type: what a column of each kind can hold beside nulls. */
  lemma TypeTakesExactly(opts: Options, v: Value, path: Path, t: DataType)
    requires path != [] && Holds(opts, v, path, t) && !IsNullish(v)
    ensures t == INT64 <==> v.BigInt?
    ensures t == FLOAT64 <==> v.Number?
    ensures t == UTF8 || t.Dictionary? <==> v.Text?
    ensures t == BOOL <==> v.Boolean?
    ensures t == BINARY <==> v.Buffer?
    ensures t.List? || t.FixedSizeList? <==> v.Array? || v.Uint8Array? || v.TypedArray?
    ensures t.FixedSizeList? ==> ElementCount(v) == Some(t.listSize)
    ensures t.List? ==> v.Array? && AllHold(opts, v.items, path, t.valueField.typ)
    ensures !t.Struct?
  {
  }
}
