/**
 * Rows to columns: `transposeData` shreds nested rows into leaf, struct and list columns, and
 * `Assemble` reads a row back. The theorem is that reading back gives what the row says, by a
 * row-wise reference that knows nothing of columns.
 */
module Columns {
  import opened Values
  import opened ArrowTypes
  import opened Blobs

  // ---------------------------------------------------------------- paths into a row

  /** `isObject`: an object whose properties the conversion looks into. */
  predicate IsObject(v: Value) {
    v.Record? || v.Instance? || v.Url? || v.ArrayBuffer? || v.BlobHandle?
  }

  function Properties(v: Value): map<string, Value> {
    if v.Record? || v.Instance? then v.fields else map[]
  }

  /** Where a path leads: to a value, or nowhere. */
  datatype Place = Missing | At(value: Value)

  /** One key further. Under null and undefined there is null. */
  function Step(p: Place, key: string): Place {
    match p
    case Missing => Missing
    case At(v) =>
      if IsNullish(v) then At(Null)
      else if IsObject(v) && key in Properties(v) then At(Properties(v)[key])
      else Missing
  }

  function Locate(p: Place, path: Path): Place
    decreases |path|
  {
    if path == [] then p else Locate(Step(p, path[0]), path[1..])
  }

  /** The value at a place, undefined where there is none. */
  function ValueOf(p: Place): Value {
    if p.Missing? then Undefined else p.value
  }

  lemma {:induction false} LocateSnoc(p: Place, path: Path, key: string)
    ensures Locate(p, path + [key]) == Step(Locate(p, path), key)
    decreases |path|
  {
    if path == [] {
      assert path + [key] == [key];
      assert [key][1..] == [];
    } else {
      assert (path + [key])[0] == path[0] && (path + [key])[1..] == path[1..] + [key];
      LocateSnoc(Step(p, path[0]), path[1..], key);
    }
  }

  /** Nothing is under a missing value, and null is under null. */
  lemma {:induction false} LocateSettled(p: Place, path: Path)
    ensures p.Missing? ==> Locate(p, path).Missing?
    ensures p == At(Null) ==> Locate(p, path) == At(Null)
    decreases |path|
  {
    if path != [] { LocateSettled(Step(p, path[0]), path[1..]); }
  }

  /** `valueAtPath`. */
  method ValueAtPath(datum: Value, path: Path) returns (v: Value)
    ensures v == ValueOf(Locate(At(datum), path))
  {
    v := datum;
    var i := 0;
    assert path[0..] == path;
    while i < |path|
      invariant 0 <= i <= |path|
      invariant Locate(At(datum), path) == Locate(At(v), path[i..])
    {
      assert path[i..][0] == path[i] && path[i..][1..] == path[i + 1..];
      if IsNullish(v) {
        LocateSettled(At(Null), path[i + 1..]);
        return Null;
      }
      if !IsObject(v) || path[i] !in Properties(v) {
        LocateSettled(Missing, path[i + 1..]);
        return Undefined;
      }
      v, i := Properties(v)[path[i]], i + 1;
    }
  }

  // ---------------------------------------------------------------- columns

  /**
   * A column of the Arrow columnar format. Leaf columns are left to Arrow's builders and hold
   * their values; a struct or list column without validity bits has no nulls.
   */
  datatype Column =
    | LeafColumn(values: seq<Value>)
    | StructColumn(length: nat, nullCount: nat, validity: Option<seq<bool>>, children: seq<Column>)
    | ListColumn(length: nat, nullCount: nat, validity: Option<seq<bool>>, offsets: seq<nat>, child: Column)

  function CountNulls(valid: seq<bool>): nat {
    if valid == [] then 0 else (if valid[0] then 0 else 1) + CountNulls(valid[1..])
  }

  /** The rows that are null. */
  ghost function Nulls(valid: seq<bool>): set<nat> {
    set i: nat | i < |valid| && !valid[i]
  }

  lemma {:induction false} CountNullsExactly(valid: seq<bool>)
    ensures CountNulls(valid) == |Nulls(valid)|
    decreases |valid|
  {
    if valid != [] {
      var last := |valid| - 1;
      CountNullsExactly(valid[..last]);
      CountNullsSnoc(valid[..last], valid[last]);
      assert valid == valid[..last] + [valid[last]];
      assert Nulls(valid) == Nulls(valid[..last]) + (if valid[last] then {} else {last});
    }
  }

  lemma {:induction false} CountNullsSnoc(valid: seq<bool>, bit: bool)
    ensures CountNulls(valid + [bit]) == CountNulls(valid) + if bit then 0 else 1
    decreases |valid|
  {
    if valid == [] {
      assert valid + [bit] == [bit];
    } else {
      assert (valid + [bit])[1..] == valid[1..] + [bit];
      CountNullsSnoc(valid[1..], bit);
    }
  }

  /** The bits are kept only if there is a null. */
  function Bitmap(valid: seq<bool>): Option<seq<bool>> {
    if CountNulls(valid) > 0 then Some(valid) else None
  }

  predicate IsValid(validity: Option<seq<bool>>, i: nat) {
    validity.Some? ==> i < |validity.value| && validity.value[i]
  }

  lemma BitmapKeepsBits(valid: seq<bool>, i: nat)
    requires i < |valid|
    ensures IsValid(Bitmap(valid), i) <==> valid[i]
  {
    NoNullsAllValid(valid, i);
  }

  lemma {:induction false} NoNullsAllValid(valid: seq<bool>, i: nat)
    requires i < |valid|
    ensures CountNulls(valid) == 0 ==> valid[i]
    decreases |valid|
  {
    if i > 0 { NoNullsAllValid(valid[1..], i - 1); }
  }

  predicate ContainsBlob(f: Field)
    decreases f
  {
    IsBlobField(f) ||
    match f.typ
    case Struct(children) => exists i | 0 <= i < |children| :: ContainsBlob(children[i])
    case List(item) => ContainsBlob(item)
    case FixedSizeList(_, item) => ContainsBlob(item)
    case _ => false
  }

  /** A field is another one, or somewhere under it. */
  ghost predicate FieldInside(g: Field, f: Field)
    decreases f
  {
    g == f ||
    match f.typ
    case Struct(children) => exists i | 0 <= i < |children| :: FieldInside(g, children[i])
    case List(item) => FieldInside(g, item)
    case FixedSizeList(_, item) => FieldInside(g, item)
    case _ => false
  }

  lemma {:induction false} ContainsBlobExactly(f: Field)
    ensures ContainsBlob(f) <==> exists g :: FieldInside(g, f) && IsBlobField(g)
    decreases f
  {
    if IsBlobField(f) {
      assert FieldInside(f, f);
    } else {
      match f.typ {
        case Struct(children) =>
          forall i | 0 <= i < |children|
            ensures ContainsBlob(children[i]) <==> exists g :: FieldInside(g, children[i]) && IsBlobField(g)
          {
            ContainsBlobExactly(children[i]);
          }
        case List(item) => ContainsBlobExactly(item);
        case FixedSizeList(_, item) => ContainsBlobExactly(item);
        case _ =>
      }
    }
  }

  /** `makeVector` for a leaf: undefined becomes null if the field is nullable. */
  function Leaf(v: Value, nullable: bool): Value {
    if nullable && v.Undefined? then Null else v
  }

  // ---------------------------------------------------------------- lists

  /** The items of a list value; none for null. */
  function Items(v: Value): seq<Value> {
    if v.Array? then v.items else []
  }

  predicate IsListValue(v: Value) {
    IsNullish(v) || v.Array?
  }

  /** The number of items of the first `k` lists. */
  function Total(lists: seq<Value>, k: nat): nat
    requires k <= |lists|
  {
    if k == 0 then 0 else Total(lists, k - 1) + |Items(lists[k - 1])|
  }

  /** Each item of the first `k` lists in a row of its own, under the name of the item field. */
  function FlattenTo(lists: seq<Value>, k: nat, name: string): (rows: seq<Value>)
    requires k <= |lists|
    ensures |rows| == Total(lists, k)
  {
    if k == 0 then [] else FlattenTo(lists, k - 1, name) + Wrapped(Items(lists[k - 1]), name)
  }

  function Flatten(lists: seq<Value>, name: string): (rows: seq<Value>)
    ensures |rows| == Total(lists, |lists|)
  {
    FlattenTo(lists, |lists|, name)
  }

  function Wrapped(items: seq<Value>, name: string): (rows: seq<Value>)
    ensures |rows| == |items|
    ensures forall j {:trigger rows[j]} | 0 <= j < |items| :: rows[j] == Single(name, items[j])
  {
    seq(|items|, j requires 0 <= j < |items| => Single(name, items[j]))
  }

  function Single(name: string, v: Value): Value {
    Record(map[name := v])
  }

  /** Where each of the first `k` lists starts, and at last where they end. */
  function OffsetsTo(lists: seq<Value>, k: nat): (offsets: seq<nat>)
    requires k <= |lists|
    ensures |offsets| == k + 1
  {
    if k == 0 then [0] else OffsetsTo(lists, k - 1) + [Total(lists, k)]
  }

  function Offsets(lists: seq<Value>): (offsets: seq<nat>)
    ensures |offsets| == |lists| + 1
  {
    OffsetsTo(lists, |lists|)
  }

  /** The bits of a list column: a list is null if its value is null or undefined. */
  function ListBits(lists: seq<Value>): (valid: seq<bool>)
    ensures |valid| == |lists| && forall i | 0 <= i < |lists| :: valid[i] == !IsNullish(lists[i])
  {
    seq(|lists|, i requires 0 <= i < |lists| => !IsNullish(lists[i]))
  }

  lemma {:induction false} OffsetsToAt(lists: seq<Value>, n: nat, k: nat)
    requires k <= n <= |lists|
    ensures OffsetsTo(lists, n)[k] == Total(lists, k)
    decreases n
  {
    if k < n { OffsetsToAt(lists, n - 1, k); }
  }

  lemma {:induction false} TotalMonotone(lists: seq<Value>, i: nat, j: nat)
    requires i <= j <= |lists|
    ensures Total(lists, i) <= Total(lists, j)
    decreases j - i
  {
    if i < j { TotalMonotone(lists, i, j - 1); }
  }

  /** The item that a position between two offsets holds. */
  lemma {:induction false} FlattenedAt(lists: seq<Value>, n: nat, name: string, i: nat, j: nat)
    requires i < n <= |lists| && j < |Items(lists[i])|
    ensures Total(lists, i) + j < Total(lists, n)
    ensures FlattenTo(lists, n, name)[Total(lists, i) + j] == Single(name, Items(lists[i])[j])
    decreases n
  {
    if i < n - 1 { FlattenedAt(lists, n - 1, name, i, j); }
  }

  method PushItems(rows: seq<Value>, items: seq<Value>, name: string) returns (more: seq<Value>)
    ensures more == rows + Wrapped(items, name)
  {
    more := rows;
    var j := 0;
    while j < |items|
      invariant 0 <= j <= |items|
      invariant more == rows + Wrapped(items[..j], name)
    {
      assert items[..j + 1][..j] == items[..j];
      more := more + [Single(name, items[j])];
      j := j + 1;
    }
    assert items[..j] == items;
  }

  /** One turn of the loop of `transposeListData`. */
  method PushList(list: Value, name: string, rows: seq<Value>, validity: seq<bool>, offsets: seq<nat>)
    returns (rows': seq<Value>, validity': seq<bool>, offsets': seq<nat>)
    requires IsListValue(list)
    ensures rows' == rows + Wrapped(Items(list), name)
    ensures validity' == validity + [!IsNullish(list)]
    ensures offsets' == offsets + [|rows| + |Items(list)|]
  {
    if IsNullish(list) {
      assert Wrapped(Items(list), name) == [];
      return rows, validity + [false], offsets + [|rows|];
    }
    rows' := PushItems(rows, list.items, name);
    validity', offsets' := validity + [true], offsets + [|rows'|];
  }

  /** The loop of `transposeListData`. */
  method FlattenLists(
    lists: seq<Value>, name: string) returns (ok: bool, rows: seq<Value>, validity: seq<bool>, offsets: seq<nat>)
    ensures ok <==> forall i | 0 <= i < |lists| :: IsListValue(lists[i])
    ensures ok ==> rows == Flatten(lists, name) && validity == ListBits(lists) && offsets == Offsets(lists)
  {
    rows, validity, offsets := [], [], [0];
    var i := 0;
    while i < |lists|
      invariant 0 <= i <= |lists|
      invariant forall k | 0 <= k < i :: IsListValue(lists[k])
      invariant rows == FlattenTo(lists, i, name)
      invariant |validity| == i && forall k | 0 <= k < i :: validity[k] == !IsNullish(lists[k])
      invariant offsets == OffsetsTo(lists, i)
    {
      if !IsListValue(lists[i]) {
        return false, rows, validity, offsets;
      }
      rows, validity, offsets := PushList(lists[i], name, rows, validity, offsets);
      i := i + 1;
    }
    return true, rows, validity, offsets;
  }

  // ---------------------------------------------------------------- shredding

  /** `data.map(datum => valueAtPath(datum, path))`. */
  function ValuesAt(data: seq<Value>, path: Path): (values: seq<Value>)
    ensures |values| == |data| && forall i | 0 <= i < |data| :: values[i] == ValueOf(Locate(At(data[i]), path))
  {
    seq(|data|, i requires 0 <= i < |data| => ValueOf(Locate(At(data[i]), path)))
  }

  /** The bits of a struct column: only an explicit null is null. */
  function StructBits(values: seq<Value>): (valid: seq<bool>)
    ensures |valid| == |values| && forall i | 0 <= i < |values| :: valid[i] == !values[i].Null?
  {
    seq(|values|, i requires 0 <= i < |values| => !values[i].Null?)
  }

  predicate AllCoerce(values: seq<Value>, field: Field) {
    forall i | 0 <= i < |values| :: Coerce(values[i], field).Ok?
  }

  /** The rows of a blob column. */
  function BlobRows(values: seq<Value>, field: Field): (rows: seq<Option<BlobValue>>)
    requires AllCoerce(values, field)
    ensures |rows| == |values| && forall i | 0 <= i < |values| :: rows[i] == Coerce(values[i], field).value
  {
    seq(|values|, i requires 0 <= i < |values| => Coerce(values[i], field).value)
  }

  function BlobBits(rows: seq<Option<BlobValue>>): (valid: seq<bool>)
    ensures |valid| == |rows| && forall i | 0 <= i < |rows| :: valid[i] == rows[i].Some?
  {
    seq(|rows|, i requires 0 <= i < |rows| => rows[i].Some?)
  }

  function BlobCell(row: Option<BlobValue>, name: string): Value {
    if row.None? then Null else BlobColumn(row.value, name)
  }

  function BlobChildren(rows: seq<Option<BlobValue>>, children: seq<Field>): (columns: seq<Column>)
    ensures |columns| == |children|
    ensures forall k | 0 <= k < |children| ::
              && columns[k].LeafColumn? && |columns[k].values| == |rows|
              && forall i | 0 <= i < |rows| ::
                columns[k].values[i] == Leaf(BlobCell(rows[i], children[k].name), children[k].nullable)
  {
    seq(|children|, k requires 0 <= k < |children| =>
      LeafColumn(seq(|rows|,
        i requires 0 <= i < |rows| => Leaf(BlobCell(rows[i], children[k].name), children[k].nullable))))
  }

  function LeafValues(values: seq<Value>, nullable: bool): (leaves: seq<Value>)
    ensures |leaves| == |values| && forall i | 0 <= i < |values| :: leaves[i] == Leaf(values[i], nullable)
  {
    seq(|values|, i requires 0 <= i < |values| => Leaf(values[i], nullable))
  }

  predicate IsBlobStructField(f: Field) {
    IsBlobField(f) && f.typ.Struct?
  }

  predicate IsBlobList(f: Field) {
    f.typ.List? && ContainsBlob(f.typ.valueField)
  }

  /** `transposeData`. */
  function Transpose(data: seq<Value>, field: Field, path: Path): Result<Column>
    decreases field, 1
  {
    var values := ValuesAt(data, path + [field.name]);
    if IsBlobStructField(field) then
      if !AllCoerce(values, field) then Err
      else
        var rows := BlobRows(values, field);
        Ok(StructColumn(|rows|, CountNulls(BlobBits(rows)), Bitmap(BlobBits(rows)),
          BlobChildren(rows, field.typ.children)))
    else if IsBlobList(field) then
      TransposeList(values, field)
    else if field.typ.Struct? then
      match TransposeAll(data, field.typ.children, path + [field.name])
      case Err => Err
      case Ok(children) =>
        Ok(StructColumn(|values|, CountNulls(StructBits(values)), Bitmap(StructBits(values)), children))
    else
      Ok(LeafColumn(LeafValues(values, field.nullable)))
  }

  function TransposeAll(data: seq<Value>, fields: seq<Field>, path: Path): (r: Result<seq<Column>>)
    ensures r.Ok? ==> |r.value| == |fields|
    decreases fields, 0
  {
    if fields == [] then Ok([])
    else match (Transpose(data, fields[0], path), TransposeAll(data, fields[1..], path))
      case (Ok(c), Ok(rest)) => Ok([c] + rest)
      case _ => Err
  }

  /** `transposeListData`, given the list values. */
  function TransposeList(lists: seq<Value>, field: Field): Result<Column>
    requires field.typ.List?
    decreases field, 0
  {
    if exists i | 0 <= i < |lists| :: !IsListValue(lists[i]) then Err
    else
      var item := field.typ.valueField;
      match Transpose(Flatten(lists, item.name), item, [])
      case Err => Err
      case Ok(child) =>
        Ok(ListColumn(|lists|, CountNulls(ListBits(lists)), Bitmap(ListBits(lists)), Offsets(lists), child))
  }

  /** `transposeListData` as it runs. */
  method TransposeListData(data: seq<Value>, field: Field, valuesPath: Path) returns (r: Result<Column>)
    requires field.typ.List?
    ensures r == TransposeList(ValuesAt(data, valuesPath), field)
  {
    var lists := ValuesAt(data, valuesPath);
    var item := field.typ.valueField;
    var ok, rows, validity, offsets := FlattenLists(lists, item.name);
    if !ok {
      return Err;
    }
    var child := Transpose(rows, item, []);
    if child.Err? {
      return Err;
    }
    return Ok(ListColumn(|lists|, CountNulls(validity), Bitmap(validity), offsets, child.value));
  }

  // ---------------------------------------------------------------- reading back

  /** The lengths, validity bits and offsets of a column for `n` rows are those the format asks for. */
  ghost predicate Fits(c: Column, field: Field, n: nat)
    decreases field
  {
    match c
    case LeafColumn(values) => |values| == n
    case StructColumn(length, nullCount, validity, children) =>
      && field.typ.Struct? && length == n && BitsFit(validity, nullCount, n)
      && |children| == |field.typ.children|
      && forall k | 0 <= k < |children| :: Fits(children[k], field.typ.children[k], n)
    case ListColumn(length, nullCount, validity, offsets, child) =>
      && field.typ.List? && length == n && BitsFit(validity, nullCount, n)
      && |offsets| == n + 1 && offsets[0] == 0
      && Monotone(offsets)
      && Fits(child, field.typ.valueField, offsets[n])
  }

  ghost predicate Monotone(offsets: seq<nat>) {
    forall i, j | 0 <= i <= j < |offsets| :: offsets[i] <= offsets[j]
  }

  ghost predicate BitsFit(validity: Option<seq<bool>>, nullCount: nat, n: nat) {
    && (validity.None? <==> nullCount == 0)
    && (validity.Some? ==> |validity.value| == n && |Nulls(validity.value)| == nullCount)
  }

  /** Row `i` of a column for `n` rows. */
  function Assemble(c: Column, field: Field, n: nat, i: nat): Value
    requires Fits(c, field, n) && i < n
    decreases field, 1
  {
    match c
    case LeafColumn(values) => values[i]
    case StructColumn(_, _, validity, children) =>
      if IsValid(validity, i) then Record(AssembleAll(children, field.typ.children, n, i)) else Null
    case ListColumn(_, _, validity, offsets, child) =>
      if IsValid(validity, i) then Array(AssembleRange(child, field.typ.valueField, offsets[n], offsets, i)) else Null
  }

  function AssembleAll(cs: seq<Column>, fields: seq<Field>, n: nat, i: nat): map<string, Value>
    requires |cs| == |fields| && i < n && forall k | 0 <= k < |cs| :: Fits(cs[k], fields[k], n)
    decreases fields, 0
  {
    if cs == [] then map[]
    else AssembleAll(cs[1..], fields[1..], n, i)[fields[0].name := Assemble(cs[0], fields[0], n, i)]
  }

  /** The items between two offsets. */
  function AssembleRange(child: Column, item: Field, total: nat, offsets: seq<nat>, i: nat): (items: seq<Value>)
    requires i + 1 < |offsets| && offsets[|offsets| - 1] == total && Fits(child, item, total) && Monotone(offsets)
    ensures |items| == offsets[i + 1] - offsets[i]
    ensures forall j | 0 <= j < |items| ::
              offsets[i] + j < total && items[j] == Assemble(child, item, total, offsets[i] + j)
    decreases item, 2
  {
    seq(offsets[i + 1] - offsets[i], j requires 0 <= j < offsets[i + 1] - offsets[i] =>
      Assemble(child, item, total, offsets[i] + j))
  }

  // ---------------------------------------------------------------- the row-wise reference

  /** Whether the conversion accepts what is at a place. */
  predicate Convertible(field: Field, p: Place)
    decreases field, 1
  {
    if IsBlobStructField(field) then Coerce(ValueOf(p), field).Ok?
    else if IsBlobList(field) then
      && (ValueOf(p).Null? || ValueOf(p).Undefined? || ValueOf(p).Array?)
      && forall j | 0 <= j < |Items(ValueOf(p))| :: Convertible(field.typ.valueField, At(Items(ValueOf(p))[j]))
    else if field.typ.Struct? then
      forall k | 0 <= k < |field.typ.children| ::
        Convertible(field.typ.children[k], Step(p, field.typ.children[k].name))
    else true
  }

  /**
   * What a row says at a place: leaves with undefined as null, structs null only where null is
   * explicit, and everything under a missing struct missing.
   */
  function Canon(field: Field, p: Place): Value
    requires Convertible(field, p)
    decreases field, 1
  {
    if IsBlobStructField(field) then
      match Coerce(ValueOf(p), field).value
      case None => Null
      case Some(b) => Record(BlobCells(b, field.typ.children))
    else if IsBlobList(field) then
      if IsNullish(ValueOf(p)) then Null
      else Array(CanonItems(field.typ.valueField, Items(ValueOf(p))))
    else if field.typ.Struct? then
      if ValueOf(p).Null? then Null else Record(CanonAll(field.typ.children, p))
    else Leaf(ValueOf(p), field.nullable)
  }

  function CanonAll(fields: seq<Field>, p: Place): map<string, Value>
    requires forall k | 0 <= k < |fields| :: Convertible(fields[k], Step(p, fields[k].name))
    decreases fields, 0
  {
    if fields == [] then map[]
    else CanonAll(fields[1..], p)[fields[0].name := Canon(fields[0], Step(p, fields[0].name))]
  }

  function CanonItems(item: Field, items: seq<Value>): (r: seq<Value>)
    requires forall j | 0 <= j < |items| :: Convertible(item, At(items[j]))
    ensures |r| == |items| && forall j | 0 <= j < |items| :: r[j] == Canon(item, At(items[j]))
    decreases item, 2
  {
    seq(|items|, j requires 0 <= j < |items| => Canon(item, At(items[j])))
  }

  function BlobCells(b: BlobValue, children: seq<Field>): map<string, Value> {
    if children == [] then map[]
    else BlobCells(b, children[1..])[children[0].name := BlobColumn(b, children[0].name)]
  }

  // ---------------------------------------------------------------- the round trip

  /** Shredding accepts exactly the rows that are convertible at the path. */
  ghost predicate AllConvertible(data: seq<Value>, field: Field, path: Path) {
    forall i | 0 <= i < |data| :: Convertible(field, Locate(At(data[i]), path + [field.name]))
  }

  /** Every row of a column reads as the row-wise reference says. */
  ghost predicate ReadsBack(c: Column, data: seq<Value>, field: Field, path: Path)
    requires AllConvertible(data, field, path)
  {
    && Fits(c, field, |data|)
    && forall i | 0 <= i < |data| ::
      Assemble(c, field, |data|, i) == Canon(field, Locate(At(data[i]), path + [field.name]))
  }

  lemma BitmapFits(valid: seq<bool>)
    ensures BitsFit(Bitmap(valid), CountNulls(valid), |valid|)
  {
    CountNullsExactly(valid);
  }

  /** A blob column. */
  lemma BlobRoundTrip(data: seq<Value>, field: Field, path: Path)
    requires IsBlobStructField(field)
    ensures Transpose(data, field, path).Ok? <==> AllConvertible(data, field, path)
    ensures Transpose(data, field, path).Ok? ==> ReadsBack(Transpose(data, field, path).value, data, field, path)
  {
    var values := ValuesAt(data, path + [field.name]);
    if AllCoerce(values, field) {
      var rows := BlobRows(values, field);
      var children := BlobChildren(rows, field.typ.children);
      BitmapFits(BlobBits(rows));
      forall i | 0 <= i < |data| ensures Convertible(field, Locate(At(data[i]), path + [field.name])) {
        assert Coerce(values[i], field).Ok?;
      }
      var c := Transpose(data, field, path).value;
      assert Fits(c, field, |data|);
      forall i | 0 <= i < |data|
        ensures Assemble(c, field, |data|, i) == Canon(field, Locate(At(data[i]), path + [field.name]))
      {
        BitmapKeepsBits(BlobBits(rows), i);
        if rows[i].Some? { BlobCellsRead(rows, field.typ.children, children, i); }
      }
    } else {
      var i :| 0 <= i < |values| && !Coerce(values[i], field).Ok?;
      assert !Convertible(field, Locate(At(data[i]), path + [field.name]));
    }
  }

  lemma {:induction false} BlobCellsRead(rows: seq<Option<BlobValue>>, fields: seq<Field>, cs: seq<Column>, i: nat)
    requires i < |rows| && rows[i].Some? && Normal(rows[i].value) && |cs| == |fields|
    requires forall k | 0 <= k < |cs| ::
               && cs[k].LeafColumn? && |cs[k].values| == |rows|
               && cs[k].values[i] == Leaf(BlobCell(rows[i], fields[k].name), fields[k].nullable)
    ensures AssembleAll(cs, fields, |rows|, i) == BlobCells(rows[i].value, fields)
    decreases |fields|
  {
    if fields != [] { BlobCellsRead(rows, fields[1..], cs[1..], i); }
  }

  /** The main theorem: shredding succeeds exactly on convertible rows, and reading back gives each row. */
  lemma {:induction false} ShredAssembleRoundTrip(data: seq<Value>, field: Field, path: Path)
    ensures Transpose(data, field, path).Ok? <==> AllConvertible(data, field, path)
    ensures Transpose(data, field, path).Ok? ==> ReadsBack(Transpose(data, field, path).value, data, field, path)
    decreases field, 1
  {
    var values := ValuesAt(data, path + [field.name]);
    if IsBlobStructField(field) {
      BlobRoundTrip(data, field, path);
    } else if IsBlobList(field) {
      ListRoundTrip(data, field, path);
    } else if field.typ.Struct? {
      StructRoundTrip(data, field, path);
    } else {
      assert Transpose(data, field, path) == Ok(LeafColumn(LeafValues(values, field.nullable)));
    }
  }

  /** A plain struct column. */
  lemma {:induction false} StructRoundTrip(data: seq<Value>, field: Field, path: Path)
    requires field.typ.Struct? && !IsBlobStructField(field)
    ensures Transpose(data, field, path).Ok? <==> AllConvertible(data, field, path)
    ensures Transpose(data, field, path).Ok? ==> ReadsBack(Transpose(data, field, path).value, data, field, path)
    decreases field, 0
  {
    var here := path + [field.name];
    var children := field.typ.children;
    ChildrenRoundTrip(data, children, here);
    assert AllConvertible(data, field, path) <==>
      forall k | 0 <= k < |children| :: AllConvertible(data, children[k], here) by {
      StructConvertible(data, field, path);
    }
    if Transpose(data, field, path).Ok? {
      var values := ValuesAt(data, here);
      var c := Transpose(data, field, path).value;
      BitmapFits(StructBits(values));
      forall i | 0 <= i < |data| ensures Assemble(c, field, |data|, i) == Canon(field, Locate(At(data[i]), here)) {
        BitmapKeepsBits(StructBits(values), i);
        StructRowRead(data, children, here, c.children, i);
      }
    }
  }

  lemma StructConvertible(data: seq<Value>, field: Field, path: Path)
    requires field.typ.Struct? && !IsBlobStructField(field)
    ensures AllConvertible(data, field, path) <==>
            forall k | 0 <= k < |field.typ.children| :: AllConvertible(data, field.typ.children[k], path + [field.name])
  {
    var here := path + [field.name];
    var children := field.typ.children;
    forall i, k | 0 <= i < |data| && 0 <= k < |children|
      ensures Locate(At(data[i]), here + [children[k].name]) == Step(Locate(At(data[i]), here), children[k].name)
    {
      LocateSnoc(At(data[i]), here, children[k].name);
    }
    if AllConvertible(data, field, path) {
      forall k | 0 <= k < |children| ensures AllConvertible(data, children[k], here) {
        forall i | 0 <= i < |data| ensures Convertible(children[k], Locate(At(data[i]), here + [children[k].name])) {
          assert Convertible(field, Locate(At(data[i]), here));
        }
      }
    }
    if forall k | 0 <= k < |children| :: AllConvertible(data, children[k], here) {
      forall i | 0 <= i < |data| ensures Convertible(field, Locate(At(data[i]), here)) {
        forall k | 0 <= k < |children|
          ensures Convertible(children[k], Step(Locate(At(data[i]), here), children[k].name))
        {
          assert AllConvertible(data, children[k], here);
        }
      }
    }
  }

  lemma {:induction false} ChildrenRoundTrip(data: seq<Value>, fields: seq<Field>, path: Path)
    ensures TransposeAll(data, fields, path).Ok? <==>
            forall k | 0 <= k < |fields| :: AllConvertible(data, fields[k], path)
    ensures TransposeAll(data, fields, path).Ok? ==>
              forall k | 0 <= k < |fields| ::
                ReadsBack(TransposeAll(data, fields, path).value[k], data, fields[k], path)
    decreases fields, 2
  {
    if fields != [] {
      ShredAssembleRoundTrip(data, fields[0], path);
      ChildrenRoundTrip(data, fields[1..], path);
      assert (forall k | 0 <= k < |fields| :: AllConvertible(data, fields[k], path)) <==>
        AllConvertible(data, fields[0], path) &&
        forall k | 0 <= k < |fields[1..]| :: AllConvertible(data, fields[1..][k], path) by {
        assert forall k | 1 <= k < |fields| :: fields[k] == fields[1..][k - 1];
      }
      forall k | 0 <= k < |fields| && TransposeAll(data, fields, path).Ok?
        ensures ReadsBack(TransposeAll(data, fields, path).value[k], data, fields[k], path)
      {
        if k > 0 { assert fields[k] == fields[1..][k - 1]; }
      }
    }
  }

  lemma {:induction false} StructRowRead(data: seq<Value>, fields: seq<Field>, path: Path, cs: seq<Column>, i: nat)
    requires i < |data| && |cs| == |fields|
    requires forall k | 0 <= k < |fields| ::
             AllConvertible(data, fields[k], path) && ReadsBack(cs[k], data, fields[k], path)
    ensures forall k | 0 <= k < |cs| :: Fits(cs[k], fields[k], |data|)
    ensures forall k | 0 <= k < |fields| :: Convertible(fields[k], Step(Locate(At(data[i]), path), fields[k].name))
    ensures AssembleAll(cs, fields, |data|, i) == CanonAll(fields, Locate(At(data[i]), path))
    decreases |fields|
  {
    if fields != [] {
      LocateSnoc(At(data[i]), path, fields[0].name);
      assert AllConvertible(data, fields[0], path) && ReadsBack(cs[0], data, fields[0], path);
      forall k | 0 <= k < |fields| - 1
        ensures AllConvertible(data, fields[1..][k], path) && ReadsBack(cs[1..][k], data, fields[1..][k], path)
      {
        assert fields[1..][k] == fields[k + 1] && cs[1..][k] == cs[k + 1];
      }
      StructRowRead(data, fields[1..], path, cs[1..], i);
      forall k | 0 <= k < |fields| ensures Convertible(fields[k], Step(Locate(At(data[i]), path), fields[k].name)) {
        if k > 0 { assert fields[k] == fields[1..][k - 1]; }
      }
    }
  }

  /** A column of lists with blobs. */
  lemma {:induction false} ListRoundTrip(data: seq<Value>, field: Field, path: Path)
    requires IsBlobList(field) && !IsBlobStructField(field)
    ensures Transpose(data, field, path).Ok? <==> AllConvertible(data, field, path)
    ensures Transpose(data, field, path).Ok? ==> ReadsBack(Transpose(data, field, path).value, data, field, path)
    decreases field, 0
  {
    var here := path + [field.name];
    var lists := ValuesAt(data, here);
    var item := field.typ.valueField;
    var rows := Flatten(lists, item.name);
    if exists i | 0 <= i < |lists| :: !IsListValue(lists[i]) {
      var i :| 0 <= i < |lists| && !IsListValue(lists[i]);
      assert !Convertible(field, Locate(At(data[i]), here));
    } else {
      ShredAssembleRoundTrip(rows, item, []);
      FlatConvertible(lists, item);
      ListConvertible(data, field, path);
      if Transpose(data, field, path).Ok? {
        ListColumnRead(data, field, path);
      }
    }
  }

  lemma ListConvertible(data: seq<Value>, field: Field, path: Path)
    requires IsBlobList(field) && !IsBlobStructField(field)
    requires forall i | 0 <= i < |data| :: IsListValue(ValuesAt(data, path + [field.name])[i])
    ensures AllConvertible(data, field, path) <==>
            AllItemsConvertible(ValuesAt(data, path + [field.name]), field.typ.valueField)
  {
    var lists := ValuesAt(data, path + [field.name]);
    forall i | 0 <= i < |data|
      ensures Convertible(field, Locate(At(data[i]), path + [field.name])) <==>
              ItemsConvertible(lists[i], field.typ.valueField)
    {
      assert IsListValue(lists[i]);
    }
  }

  /** A flattened row leads to its item. */
  lemma FlatLocate(lists: seq<Value>, item: Field, i: nat, j: nat)
    requires i < |lists| && j < |Items(lists[i])|
    ensures Total(lists, i) + j < |Flatten(lists, item.name)|
    ensures Locate(At(Flatten(lists, item.name)[Total(lists, i) + j]), [] + [item.name]) == At(Items(lists[i])[j])
  {
    FlattenedAt(lists, |lists|, item.name, i, j);
    SingleAt(item.name, Items(lists[i])[j]);
    assert [] + [item.name] == [item.name];
  }

  ghost predicate ItemsConvertible(v: Value, item: Field) {
    forall j | 0 <= j < |Items(v)| :: Convertible(item, At(Items(v)[j]))
  }

  ghost predicate AllItemsConvertible(lists: seq<Value>, item: Field) {
    forall i {:trigger ItemsConvertible(lists[i], item)} | 0 <= i < |lists| :: ItemsConvertible(lists[i], item)
  }

  lemma FlatRowsToItems(lists: seq<Value>, item: Field, i: nat)
    requires AllConvertible(Flatten(lists, item.name), item, []) && i < |lists|
    ensures ItemsConvertible(lists[i], item)
  {
    forall j | 0 <= j < |Items(lists[i])| ensures Convertible(item, At(Items(lists[i])[j])) {
      FlatLocate(lists, item, i, j);
    }
  }

  lemma ItemsToFlatRow(lists: seq<Value>, item: Field, k: nat)
    requires AllItemsConvertible(lists, item)
    requires k < |Flatten(lists, item.name)|
    ensures Convertible(item, Locate(At(Flatten(lists, item.name)[k]), [] + [item.name]))
  {
    var i, j := FlatIndex(lists, |lists|, k);
    FlatLocate(lists, item, i, j);
    assert ItemsConvertible(lists[i], item);
  }

  /** The flattened rows are convertible exactly when all the items are. */
  lemma FlatConvertible(lists: seq<Value>, item: Field)
    ensures AllConvertible(Flatten(lists, item.name), item, []) <==> AllItemsConvertible(lists, item)
  {
    if AllConvertible(Flatten(lists, item.name), item, []) {
      forall i | 0 <= i < |lists| ensures ItemsConvertible(lists[i], item) { FlatRowsToItems(lists, item, i); }
    }
    if AllItemsConvertible(lists, item) {
      forall k | 0 <= k < |Flatten(lists, item.name)|
        ensures Convertible(item, Locate(At(Flatten(lists, item.name)[k]), [] + [item.name]))
      {
        ItemsToFlatRow(lists, item, k);
      }
    }
  }

  lemma SingleAt(name: string, v: Value)
    ensures Locate(At(Single(name, v)), [name]) == At(v)
  {
    assert [name][1..] == [];
  }

  /** Which item a flattened position holds. */
  lemma {:induction false} FlatIndex(lists: seq<Value>, n: nat, k: nat) returns (i: nat, j: nat)
    requires n <= |lists| && k < Total(lists, n)
    ensures i < n && j < |Items(lists[i])| && k == Total(lists, i) + j
    decreases n
  {
    if k < Total(lists, n - 1) {
      i, j := FlatIndex(lists, n - 1, k);
    } else {
      i, j := n - 1, k - Total(lists, n - 1);
    }
  }

  lemma ListColumnRead(data: seq<Value>, field: Field, path: Path)
    requires IsBlobList(field) && !IsBlobStructField(field)
    requires Transpose(data, field, path).Ok? && AllConvertible(data, field, path)
    requires
      var item := field.typ.valueField;
      var rows := Flatten(ValuesAt(data, path + [field.name]), item.name);
      && AllConvertible(rows, item, []) && Transpose(data, field, path).value.ListColumn?
      && ReadsBack(Transpose(data, field, path).value.child, rows, item, [])
    ensures ReadsBack(Transpose(data, field, path).value, data, field, path)
  {
    var here := path + [field.name];
    var lists := ValuesAt(data, here);
    var item := field.typ.valueField;
    var rows := Flatten(lists, item.name);
    var c := Transpose(data, field, path).value;
    var offsets := c.offsets;
    BitmapFits(ListBits(lists));
    OffsetsFit(lists);
    assert Fits(c, field, |data|);
    forall i | 0 <= i < |data| ensures Assemble(c, field, |data|, i) == Canon(field, Locate(At(data[i]), here)) {
      BitmapKeepsBits(ListBits(lists), i);
      if !IsNullish(lists[i]) { ListRowRead(lists, item, c.child, i); }
    }
  }

  /** The offsets start at zero, never go down, and end at the number of items. */
  lemma OffsetsFit(lists: seq<Value>)
    ensures Offsets(lists)[0] == 0 && Offsets(lists)[|lists|] == Total(lists, |lists|) && Monotone(Offsets(lists))
  {
    OffsetsToAt(lists, |lists|, 0);
    OffsetsToAt(lists, |lists|, |lists|);
    forall i, j | 0 <= i <= j < |Offsets(lists)| ensures Offsets(lists)[i] <= Offsets(lists)[j] {
      OffsetsToAt(lists, |lists|, i);
      OffsetsToAt(lists, |lists|, j);
      TotalMonotone(lists, i, j);
    }
  }

  lemma OffsetNext(lists: seq<Value>, i: nat)
    requires i < |lists|
    ensures Offsets(lists)[i] == Total(lists, i) && Offsets(lists)[i + 1] == Total(lists, i) + |Items(lists[i])|
  {
    OffsetsToAt(lists, |lists|, i);
    OffsetsToAt(lists, |lists|, i + 1);
  }

  lemma ListItemRead(lists: seq<Value>, item: Field, child: Column, i: nat, j: nat)
    requires i < |lists| && j < |Items(lists[i])|
    requires AllConvertible(Flatten(lists, item.name), item, []) &&
             ReadsBack(child, Flatten(lists, item.name), item, [])
    requires Convertible(item, At(Items(lists[i])[j]))
    ensures Total(lists, i) + j < |Flatten(lists, item.name)|
    ensures Assemble(child, item, |Flatten(lists, item.name)|, Total(lists, i) + j) ==
            Canon(item, At(Items(lists[i])[j]))
  {
    var rows := Flatten(lists, item.name);
    FlatLocate(lists, item, i, j);
    assert Convertible(item, Locate(At(rows[Total(lists, i) + j]), [] + [item.name]));
  }

  lemma {:induction false} ListRowRead(lists: seq<Value>, item: Field, child: Column, i: nat)
    requires i < |lists|
    requires AllConvertible(Flatten(lists, item.name), item, []) &&
             ReadsBack(child, Flatten(lists, item.name), item, [])
    requires forall j | 0 <= j < |Items(lists[i])| :: Convertible(item, At(Items(lists[i])[j]))
    ensures |Offsets(lists)| == |lists| + 1 && Offsets(lists)[|lists|] == |Flatten(lists, item.name)|
    ensures Monotone(Offsets(lists))
    ensures AssembleRange(child, item, |Flatten(lists, item.name)|, Offsets(lists), i) ==
            CanonItems(item, Items(lists[i]))
  {
    OffsetsFit(lists);
    OffsetNext(lists, i);
    var items := AssembleRange(child, item, |Flatten(lists, item.name)|, Offsets(lists), i);
    var canon := CanonItems(item, Items(lists[i]));
    assert |items| == |canon|;
    forall j | 0 <= j < |items| ensures items[j] == canon[j] {
      ListItemRead(lists, item, child, i, j);
    }
  }

  // ---------------------------------------------------------------- consequences for rows

  /** A value already in the shape a field asks for: nothing missing, nothing more, blobs normalised. */
  ghost predicate Conforms(field: Field, v: Value)
    decreases field, 1
  {
    if IsBlobStructField(field) then
      v.Null? || (Coerce(v, field).Ok? && Coerce(v, field).value.Some?
                  && v == Record(BlobCells(Coerce(v, field).value.value, field.typ.children)))
    else if IsBlobList(field) then
      v.Null? || (v.Array? && forall j | 0 <= j < |v.items| :: Conforms(field.typ.valueField, v.items[j]))
    else if field.typ.Struct? then
      v.Null? || (v.Record? && ConformsAll(field.typ.children, v.fields) && v.fields.Keys == Names(field.typ.children))
    else
      field.nullable ==> !v.Undefined?
  }

  ghost predicate ConformsAll(fields: seq<Field>, row: map<string, Value>)
    decreases fields, 0
  {
    fields != [] ==>
      && fields[0].name in row && Conforms(fields[0], row[fields[0].name])
      && ConformsAll(fields[1..], row)
  }

  function Names(fields: seq<Field>): set<string> {
    set i | 0 <= i < |fields| :: fields[i].name
  }

  /** Null goes through at every field that is not a non-nullable leaf of its own. */
  lemma {:induction false} NullConvertible(field: Field)
    ensures Convertible(field, At(Null))
    decreases field
  {
    if field.typ.Struct? && !IsBlobStructField(field) {
      forall k | 0 <= k < |field.typ.children| ensures Convertible(field.typ.children[k], At(Null)) {
        NullConvertible(field.typ.children[k]);
      }
    }
  }

  /** A conforming value is its own canonical form. */
  lemma {:induction false} CanonOfConforming(field: Field, v: Value)
    requires Conforms(field, v)
    ensures Convertible(field, At(v)) && Canon(field, At(v)) == v
    decreases field, 1
  {
    if v.Null? {
      NullConvertible(field);
    } else if IsBlobList(field) && !IsBlobStructField(field) {
      CanonOfConformingList(field, v);
    } else if field.typ.Struct? && !IsBlobStructField(field) {
      CanonAllOfConforming(field.typ.children, v.fields);
      assert v == Record(v.fields) && CanonAll(field.typ.children, At(v)) == v.fields;
    }
  }

  lemma {:induction false} CanonOfConformingList(field: Field, v: Value)
    requires IsBlobList(field) && !IsBlobStructField(field) && v.Array? && Conforms(field, v)
    ensures Convertible(field, At(v)) && Canon(field, At(v)) == v
    decreases field, 0
  {
    forall j | 0 <= j < |v.items|
      ensures Convertible(field.typ.valueField, At(v.items[j])) &&
              Canon(field.typ.valueField, At(v.items[j])) == v.items[j]
    {
      CanonOfConforming(field.typ.valueField, v.items[j]);
    }
    assert Items(v) == v.items && CanonItems(field.typ.valueField, v.items) == v.items;
  }

  lemma NamesCons(fields: seq<Field>)
    requires fields != []
    ensures Names(fields) == Names(fields[1..]) + {fields[0].name}
  {
    forall k | 1 <= k < |fields|
      ensures fields[k].name in Names(fields[1..])
    {
      assert fields[1..][k - 1] == fields[k];
    }
    forall k | 0 <= k < |fields| - 1
      ensures fields[1..][k].name in Names(fields)
    {
      assert fields[1..][k] == fields[k + 1];
    }
  }

  ghost predicate Within(m: map<string, Value>, row: map<string, Value>) {
    forall name | name in m :: name in row && m[name] == row[name]
  }

  lemma WithinUpdate(m: map<string, Value>, row: map<string, Value>, name: string)
    requires Within(m, row) && name in row
    ensures Within(m[name := row[name]], row) && m[name := row[name]].Keys == m.Keys + {name}
  {
  }

  ghost predicate EachConvertible(fields: seq<Field>, p: Place) {
    forall k | 0 <= k < |fields| :: Convertible(fields[k], Step(p, fields[k].name))
  }

  lemma EachConvertibleCons(fields: seq<Field>, p: Place)
    requires fields != [] && Convertible(fields[0], Step(p, fields[0].name)) && EachConvertible(fields[1..], p)
    ensures EachConvertible(fields, p)
  {
    forall k | 0 <= k < |fields| ensures Convertible(fields[k], Step(p, fields[k].name)) {
      if k > 0 { assert fields[k] == fields[1..][k - 1]; }
    }
  }

  lemma {:induction false} CanonAllOfConforming(fields: seq<Field>, row: map<string, Value>)
    requires ConformsAll(fields, row)
    ensures EachConvertible(fields, At(Record(row)))
    ensures CanonAll(fields, At(Record(row))).Keys == Names(fields)
    ensures Within(CanonAll(fields, At(Record(row))), row)
    decreases fields, 0
  {
    if fields != [] {
      CanonOfConforming(fields[0], row[fields[0].name]);
      CanonAllOfConforming(fields[1..], row);
      CanonAllCons(fields, row);
    }
  }

  lemma CanonAllCons(fields: seq<Field>, row: map<string, Value>)
    requires fields != [] && fields[0].name in row && EachConvertible(fields[1..], At(Record(row)))
    requires Convertible(fields[0], At(row[fields[0].name]))
    requires Canon(fields[0], At(row[fields[0].name])) == row[fields[0].name]
    requires CanonAll(fields[1..], At(Record(row))).Keys == Names(fields[1..])
    requires Within(CanonAll(fields[1..], At(Record(row))), row)
    ensures EachConvertible(fields, At(Record(row)))
    ensures CanonAll(fields, At(Record(row))).Keys == Names(fields)
    ensures Within(CanonAll(fields, At(Record(row))), row)
  {
    var first, p := fields[0], At(Record(row));
    NamesCons(fields);
    assert Step(p, first.name) == At(row[first.name]);
    EachConvertibleCons(fields, p);
    WithinUpdate(CanonAll(fields[1..], p), row, first.name);
    assert CanonAll(fields, p) == CanonAll(fields[1..], p)[first.name := row[first.name]];
  }

  /** Rows in the shape of a field are read back unchanged from the columns made of them. */
  lemma ConformingRowsSurvive(data: seq<Value>, field: Field, i: nat)
    requires i < |data|
    requires forall k | 0 <= k < |data| ::
               data[k].Record? && field.name in data[k].fields && Conforms(field, data[k].fields[field.name])
    ensures Transpose(data, field, []).Ok?
    ensures Fits(Transpose(data, field, []).value, field, |data|)
    ensures Assemble(Transpose(data, field, []).value, field, |data|, i) == data[i].fields[field.name]
  {
    assert [] + [field.name] == [field.name] && [field.name][1..] == [];
    forall k | 0 <= k < |data|
      ensures Locate(At(data[k]), [] + [field.name]) == At(data[k].fields[field.name])
      ensures Convertible(field, Locate(At(data[k]), [] + [field.name]))
      ensures Canon(field, Locate(At(data[k]), [] + [field.name])) == data[k].fields[field.name]
    {
      assert Locate(At(data[k]), [field.name]) == Locate(Step(At(data[k]), field.name), []);
      CanonOfConforming(field, data[k].fields[field.name]);
    }
    ShredAssembleRoundTrip(data, field, []);
  }

  /** Every leaf under a field is nullable. */
  ghost predicate NullableLeaves(field: Field)
    decreases field
  {
    if field.typ.Struct? && !IsBlobStructField(field) then
      forall k | 0 <= k < |field.typ.children| :: NullableLeaves(field.typ.children[k])
    else field.nullable
  }

  /** A valid struct, down to its leaves, with a null in each. */
  ghost predicate AllNulls(field: Field, v: Value)
    decreases field, 1
  {
    if field.typ.Struct? && !IsBlobStructField(field) then v.Record? && AllNullsIn(field.typ.children, v.fields)
    else v.Null?
  }

  ghost predicate AllNullsIn(fields: seq<Field>, row: map<string, Value>)
    decreases fields, 0
  {
    && row.Keys == Names(fields)
    && (fields != [] ==> AllNulls(fields[0], row[fields[0].name])
                         && (fields[0].name !in Names(fields[1..]) ==> AllNullsIn(fields[1..], row - {fields[0].name})))
  }

  /** A missing struct is a valid struct of nulls, however deep; an explicit null is null. */
  lemma {:induction false} MissingIsAllNulls(field: Field)
    requires NullableLeaves(field)
    ensures Convertible(field, Missing) && AllNulls(field, Canon(field, Missing))
    ensures Convertible(field, At(Null)) && Canon(field, At(Null)).Null?
    decreases field, 1
  {
    NullConvertible(field);
    MissingConvertible(field);
    if field.typ.Struct? && !IsBlobStructField(field) { MissingIsAllNullsIn(field.typ.children); }
  }

  lemma {:induction false} MissingIsAllNullsIn(fields: seq<Field>)
    requires forall k | 0 <= k < |fields| :: NullableLeaves(fields[k])
    ensures forall k | 0 <= k < |fields| :: Convertible(fields[k], Step(Missing, fields[k].name))
    ensures AllNullsIn(fields, CanonAll(fields, Missing))
    decreases fields, 0
  {
    forall k | 0 <= k < |fields| ensures Convertible(fields[k], Missing) { MissingConvertible(fields[k]); }
    if fields != [] {
      MissingIsAllNulls(fields[0]);
      forall k | 0 <= k < |fields| - 1
        ensures NullableLeaves(fields[1..][k])
      {
        assert fields[1..][k] == fields[k + 1];
      }
      MissingIsAllNullsIn(fields[1..]);
      AllNullsCons(fields, CanonAll(fields[1..], Missing), Canon(fields[0], Missing));
    }
  }

  lemma AllNullsCons(fields: seq<Field>, rest: map<string, Value>, w: Value)
    requires fields != [] && AllNulls(fields[0], w) && AllNullsIn(fields[1..], rest)
    ensures AllNullsIn(fields, rest[fields[0].name := w])
  {
    NamesCons(fields);
    var name := fields[0].name;
    if name !in Names(fields[1..]) { assert rest[name := w] - {name} == rest; }
  }

  lemma {:induction false} MissingConvertible(field: Field)
    ensures Convertible(field, Missing)
    decreases field
  {
    if field.typ.Struct? && !IsBlobStructField(field) {
      forall k | 0 <= k < |field.typ.children| ensures Convertible(field.typ.children[k], Missing) {
        MissingConvertible(field.typ.children[k]);
      }
    }
  }

  /** Where a row has null or undefined for a struct, every column under the struct is null, however deep. */
  lemma NullReachesDown(data: seq<Value>, field: Field, path: Path, i: nat, k: nat)
    requires field.typ.Struct? && !IsBlobStructField(field) && Transpose(data, field, path).Ok?
    requires i < |data| && k < |field.typ.children|
    requires var p := Locate(At(data[i]), path + [field.name]); p == At(Null) || p == At(Undefined)
    ensures
      var c := Transpose(data, field, path).value;
      && c.StructColumn? && k < |c.children| && Fits(c.children[k], field.typ.children[k], |data|)
      && Assemble(c.children[k], field.typ.children[k], |data|, i) == Null
  {
    var here, child := path + [field.name], field.typ.children[k];
    ChildrenRoundTrip(data, field.typ.children, here);
    NullReads(TransposeAll(data, field.typ.children, here).value[k], data, child, here, i);
  }

  /** Under null and undefined every field reads null. */
  lemma NullReads(c: Column, data: seq<Value>, child: Field, here: Path, i: nat)
    requires i < |data| && (Locate(At(data[i]), here) == At(Null) || Locate(At(data[i]), here) == At(Undefined))
    requires AllConvertible(data, child, here) && ReadsBack(c, data, child, here)
    ensures Assemble(c, child, |data|, i) == Null
  {
    LocateSnoc(At(data[i]), here, child.name);
    assert Canon(child, At(Null)) == Null by { NullConvertible(child); }
  }

  /** A leaf column has the values of the rows; a nullable one has null where there is none. */
  lemma LeafReads(data: seq<Value>, field: Field, path: Path, i: nat)
    requires !field.typ.Struct? && !IsBlobList(field) && i < |data|
    ensures
      var c := Transpose(data, field, path);
      && c.Ok? && c.value.LeafColumn? && |c.value.values| == |data|
      && match Locate(At(data[i]), path + [field.name])
         case Missing => c.value.values[i] == if field.nullable then Null else Undefined
         case At(Undefined) => c.value.values[i] == if field.nullable then Null else Undefined
         case At(v) => c.value.values[i] == v
  {
  }

  /** An object of a class reads as the plain object with its properties. */
  lemma InstanceReadsAsRecord(field: Field, props: map<string, Value>)
    requires field.typ.Struct? && !IsBlobStructField(field)
    ensures Convertible(field, At(Instance(props))) <==> Convertible(field, At(Record(props)))
    ensures Convertible(field, At(Record(props))) ==>
              Canon(field, At(Instance(props))) == Canon(field, At(Record(props)))
  {
    assert forall name :: Step(At(Instance(props)), name) == Step(At(Record(props)), name);
    if Convertible(field, At(Record(props))) { InstanceReadsAsRecordIn(field.typ.children, props); }
  }

  lemma {:induction false} InstanceReadsAsRecordIn(fields: seq<Field>, props: map<string, Value>)
    requires EachConvertible(fields, At(Record(props))) && EachConvertible(fields, At(Instance(props)))
    ensures CanonAll(fields, At(Instance(props))) == CanonAll(fields, At(Record(props)))
    decreases |fields|
  {
    if fields != [] {
      assert forall k | 0 <= k < |fields| - 1 :: fields[1..][k] == fields[k + 1];
      InstanceReadsAsRecordIn(fields[1..], props);
    }
  }
}
