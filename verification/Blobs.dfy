/** Blob inputs: what is accepted for a `lance.blob.v2` column and what it is normalised to. */
module Blobs {
  import opened Values
  import opened ArrowTypes

  const EXTENSION_KEY := "ARROW:extension:name"
  const BLOB_V2_EXTENSION_NAME := "lance.blob.v2"
  const MAX_UINT64 := 0xffff_ffff_ffff_ffff

  predicate IsBlobField(f: Field) {
    EXTENSION_KEY in f.metadata && f.metadata[EXTENSION_KEY] == BLOB_V2_EXTENSION_NAME
  }

  /** `BlobValue`: the columns of the blob struct. */
  datatype BlobValue = BlobValue(data: Option<Value>, uri: Option<string>, position: Option<int>, size: Option<int>)

  /** The property of an object, undefined if it has none of that name. */
  function Get(fields: map<string, Value>, name: string): Value {
    if name in fields then fields[name] else Undefined
  }

  predicate IsBlobKey(k: string) {
    k == "data" || k == "uri" || k == "position" || k == "size"
  }

  predicate IsBlobBytes(v: Value) {
    v.Buffer? || v.Uint8Array?
  }

  /** Any plain object, or another object with a `data` or `uri` property. */
  predicate IsBlobStruct(v: Value) {
    v.Record? || (v.Instance? && ("data" in v.fields || "uri" in v.fields))
  }

  /** The blob handle a value needs read first. */
  function BlobToRead(v: Value): Option<nat> {
    if v.BlobHandle? then Some(v.id)
    else if IsBlobStruct(v) && Get(v.fields, "data").BlobHandle? then Some(Get(v.fields, "data").id)
    else None
  }

  /** Replaces the handle that `BlobToRead` found. */
  function WithBlobBytes(v: Value, bytes: Bytes): Value
    requires BlobToRead(v).Some?
  {
    if v.BlobHandle? then Uint8Array(bytes)
    else Record(v.fields["uri" := Get(v.fields, "uri")]["position" := Get(v.fields, "position")]
                        ["size" := Get(v.fields, "size")]["data" := Uint8Array(bytes)])
  }

  function NormalizeBlobInput(v: Value): Result<Value> {
    if BlobToRead(v).Some? then Err
    else if v.ArrayBuffer? then Ok(Uint8Array(v.bytes))
    else if v.Url? then Ok(Text(v.href))
    else if !IsBlobStruct(v) then Ok(v)
    else
      var data, uri := Get(v.fields, "data"), Get(v.fields, "uri");
      if !data.ArrayBuffer? && !uri.Url? then Ok(v)
      else Ok(Record(v.fields["data" := if data.ArrayBuffer? then Uint8Array(data.bytes) else data]
                             ["uri" := if uri.Url? then Text(uri.href) else uri]
                             ["position" := Get(v.fields, "position")]["size" := Get(v.fields, "size")]))
  }

  function RangeInteger(v: Value, minimum: int): Result<int> {
    match v
    case BigInt(i) => if minimum <= i <= MAX_UINT64 then Ok(i) else Err
    case Number(SafeInteger(i)) => if minimum <= i <= MAX_UINT64 then Ok(i) else Err
    case _ => Err
  }

  predicate HasChild(f: Field, name: string) {
    f.typ.Struct? && exists i | 0 <= i < |f.typ.children| :: f.typ.children[i].name == name
  }

  /** The struct case of `coerceBlobValue`. */
  function CoerceStruct(fields: map<string, Value>, storage: Field): Result<Option<BlobValue>> {
    var uri, data := Get(fields, "uri"), Get(fields, "data");
    var position, size := Get(fields, "position"), Get(fields, "size");
    if "data" !in fields && "uri" !in fields then Err
    else if exists k | k in fields :: !IsBlobKey(k) then Err
    else if uri == Text("") then Err
    else if !IsNullish(uri) && !uri.Text? then Err
    else if !IsNullish(data) && !IsBlobBytes(data) then Err
    else if IsNullish(data) == IsNullish(uri) then Err
    else if IsNullish(position) != IsNullish(size) then Err
    else
      var uriValue := if uri.Text? then Some(uri.text) else None;
      var bytes := if IsNullish(data) then None else Some(data);
      if IsNullish(position) then Ok(Some(BlobValue(bytes, uriValue, None, None)))
      else if uriValue.None? then Err
      else match (RangeInteger(position, 0), RangeInteger(size, 1))
        case (Ok(p), Ok(s)) =>
          if p + s > MAX_UINT64 || !HasChild(storage, "position") || !HasChild(storage, "size") then Err
          else Ok(Some(BlobValue(None, uriValue, Some(p), Some(s))))
        case _ => Err
  }

  /** `coerceBlobValue(input, field)`; `None` is a null blob. */
  function Coerce(input: Value, storage: Field): (r: Result<Option<BlobValue>>)
    ensures r.Ok? && r.value.Some? ==>
              && Normal(r.value.value)
              && (r.value.value.position.Some? ==> HasChild(storage, "position") && HasChild(storage, "size"))
  {
    match NormalizeBlobInput(input)
    case Err => Err
    case Ok(v) =>
      if IsNullish(v) then Ok(None)
      else if IsBlobBytes(v) then Ok(Some(BlobValue(Some(v), None, None, None)))
      else if v.Text? then (if v.text == "" then Err else Ok(Some(BlobValue(None, Some(v.text), None, None))))
      else if IsBlobStruct(v) then CoerceStruct(v.fields, storage)
      else Err
  }

  /** The value of a column of the blob struct: `normalized[name] ?? null`. */
  function BlobColumn(b: BlobValue, name: string): Value {
    if name == "data" then (if b.data.Some? then b.data.value else Null)
    else if name == "uri" then (if b.uri.Some? then Text(b.uri.value) else Null)
    else if name == "position" then (if b.position.Some? then BigInt(b.position.value) else Null)
    else if name == "size" then (if b.size.Some? then BigInt(b.size.value) else Null)
    else Null
  }

  /** A coerced blob has exactly one source, and a range that fits and belongs to a uri. */
  predicate Normal(b: BlobValue) {
    && (b.data.Some? <==> b.uri.None?)
    && (b.data.Some? ==> IsBlobBytes(b.data.value))
    && (b.uri.Some? ==> b.uri.value != "")
    && (b.position.Some? <==> b.size.Some?)
    && (b.position.Some? ==>
          b.uri.Some? && 0 <= b.position.value && 1 <= b.size.value && b.position.value + b.size.value <= MAX_UINT64)
  }

  // ---------------------------------------------------------------- the first coercion and its widening

  /** A normalised value as the object it is. */
  function AsRecord(b: BlobValue): Value {
    var base := map["data" := BlobColumn(b, "data"), "uri" := BlobColumn(b, "uri")];
    Record(if b.position.Some? then base["position" := BlobColumn(b, "position")]["size" := BlobColumn(b, "size")]
           else base)
  }

  /** All storage children, even unused ones. */
  function Widened(b: BlobValue, children: seq<Field>): Value {
    Record(map i | 0 <= i < |children| :: children[i].name := BlobColumn(b, children[i].name))
  }

  /** What `makeArrowTable` replaces a blob value with before inference. */
  function FirstPass(v: Value, storage: Field): Result<Value> {
    if v.Undefined? then Ok(v)
    else match Coerce(v, storage)
      case Err => Err
      case Ok(None) => Ok(Null)
      case Ok(Some(b)) =>
        if !storage.typ.Struct? || |storage.typ.children| == 2 then Ok(AsRecord(b))
        else Ok(Widened(b, storage.typ.children))
  }

  /** The column that holds a blob. */
  function Source(b: BlobValue): string {
    if b.data.Some? then "data" else "uri"
  }

  /** The column that an accepted value fills, read off the value itself. */
  function SourceOf(v: Value): string {
    if IsBlobBytes(v) || v.ArrayBuffer? then "data"
    else if (v.Record? || v.Instance?) && !IsNullish(Get(v.fields, "data")) then "data"
    else "uri"
  }

  /** What a value stands for in a blob column: bytes are bytes, a URL its text, a number its integer. */
  function Cell(v: Value): Value {
    match v
    case Undefined => Null
    case ArrayBuffer(bytes) => Uint8Array(bytes)
    case Url(href) => Text(href)
    case Number(SafeInteger(i)) => BigInt(i)
    case _ => v
  }

  /** What an input gives for a column of the blob struct, read off the input itself. */
  function Payload(v: Value, name: string): Value {
    match v
    case Buffer(_) => if name == "data" then v else Null
    case Uint8Array(_) => if name == "data" then v else Null
    case ArrayBuffer(bytes) => if name == "data" then Uint8Array(bytes) else Null
    case Text(_) => if name == "uri" then v else Null
    case Url(href) => if name == "uri" then Text(href) else Null
    case Record(fields) => if name in fields then Cell(fields[name]) else Null
    case Instance(fields) => if name in fields then Cell(fields[name]) else Null
    case _ => Null
  }

  predicate OnlyBlobKeys(fields: map<string, Value>) {
    forall k | k in fields :: k in {"data", "uri", "position", "size"}
  }

  /** Bytes, text, or an object with none but the four properties. */
  predicate BlobShaped(v: Value) {
    || v.Buffer? || v.Uint8Array? || v.ArrayBuffer? || v.Text? || v.Url?
    || ((v.Record? || v.Instance?) && OnlyBlobKeys(v.fields))
  }

  /** A byte range that fits and has a place in the storage. */
  predicate RangeFits(position: Value, size: Value, storage: Field) {
    && position.BigInt? && size.BigInt? && 0 <= position.big && 1 <= size.big
    && position.big + size.big <= 0xffff_ffff_ffff_ffff
    && HasChild(storage, "position") && HasChild(storage, "size")
  }

  /** Exactly one of bytes and a text that is not empty, with a byte range only if there is a text. */
  predicate ColumnsFit(data: Value, uri: Value, position: Value, size: Value, storage: Field) {
    && (uri.Null? ==> (data.Buffer? || data.Uint8Array?) && position.Null? && size.Null?)
    && (!uri.Null? ==>
          && uri.Text? && uri.text != "" && data.Null?
          && ((position.Null? && size.Null?) || RangeFits(position, size, storage)))
  }

  /** What a blob column takes. */
  predicate TakenAsBlob(v: Value, storage: Field) {
    !IsNullish(v) ==>
      && BlobShaped(v)
      && ColumnsFit(Payload(v, "data"), Payload(v, "uri"), Payload(v, "position"), Payload(v, "size"), storage)
  }

  /** An accepted value with a byte range. */
  predicate HasRange(v: Value) {
    (v.Record? || v.Instance?) && !IsNullish(Get(v.fields, "position"))
  }

  /** An accepted value puts something else than null in a column. */
  predicate Fills(v: Value, name: string) {
    name == SourceOf(v) || ((name == "position" || name == "size") && HasRange(v))
  }

  /** Which columns an object gives. */
  lemma StructColumns(fields: map<string, Value>, storage: Field)
    requires CoerceStruct(fields, storage).Ok?
    ensures CoerceStruct(fields, storage).value.Some?
    ensures
      var b := CoerceStruct(fields, storage).value.value;
      && (b.data.Some? <==> !IsNullish(Get(fields, "data")))
      && (b.position.Some? <==> !IsNullish(Get(fields, "position")))
  {
  }

  lemma CoercedColumns(v: Value, storage: Field)
    requires Coerce(v, storage).Ok?
    ensures Coerce(v, storage).value.None? <==> IsNullish(v)
    ensures Coerce(v, storage).value.Some? ==> Source(Coerce(v, storage).value.value) == SourceOf(v)
    ensures Coerce(v, storage).value.Some? ==>
              forall name :: BlobColumn(Coerce(v, storage).value.value, name).Null? <==> !Fills(v, name)
  {
    var w := NormalizeBlobInput(v).value;
    if IsBlobStruct(w) { StructColumns(w.fields, storage); }
  }

  /** Normalising an object keeps what each column stands for. */
  lemma NormalizedObject(v: Value, name: string)
    requires IsBlobStruct(v) && BlobToRead(v).None?
    ensures NormalizeBlobInput(v).Ok? && IsBlobStruct(NormalizeBlobInput(v).value)
    ensures
      var fields := NormalizeBlobInput(v).value.fields;
      && Cell(Get(fields, name)) == Cell(Get(v.fields, name))
      && !Get(fields, "data").ArrayBuffer? && !Get(fields, "data").BlobHandle? && !Get(fields, "uri").Url?
      && (name == "position" || name == "size" ==> Get(fields, name) == Get(v.fields, name))
  {
  }

  lemma NormalizedKeys(v: Value)
    requires IsBlobStruct(v) && BlobToRead(v).None?
    ensures
      var fields := NormalizeBlobInput(v).value.fields;
      && (OnlyBlobKeys(fields) <==> OnlyBlobKeys(v.fields))
      && ("data" in fields || "uri" in fields <==> "data" in v.fields || "uri" in v.fields)
  {
    assert forall k :: IsBlobKey(k) <==> k in {"data", "uri", "position", "size"};
    var fields := NormalizeBlobInput(v).value.fields;
    forall k | k in fields ensures k in v.fields || IsBlobKey(k) {}
    forall k | k in v.fields ensures k in fields {}
  }

  lemma RangePayload(v: Value, minimum: int)
    ensures RangeInteger(v, minimum).Ok? <==> Cell(v).BigInt? && minimum <= Cell(v).big <= MAX_UINT64
    ensures RangeInteger(v, minimum).Ok? ==> RangeInteger(v, minimum).value == Cell(v).big
  {
  }

  lemma StructPayload(fields: map<string, Value>, storage: Field, name: string)
    requires CoerceStruct(fields, storage).Ok?
    ensures CoerceStruct(fields, storage).value.Some? && OnlyBlobKeys(fields)
    ensures BlobColumn(CoerceStruct(fields, storage).value.value, name) == Cell(Get(fields, name))
  {
    RangePayload(Get(fields, "position"), 0);
    RangePayload(Get(fields, "size"), 1);
  }

  /** The bytes, text and range of an accepted value, and nothing else, end up in its columns. */
  lemma CoercedPayload(v: Value, storage: Field, name: string)
    requires Coerce(v, storage).Ok? && Coerce(v, storage).value.Some?
    ensures BlobColumn(Coerce(v, storage).value.value, name) == Payload(v, name)
  {
    if IsBlobStruct(v) {
      NormalizedObject(v, name);
      StructPayload(NormalizeBlobInput(v).value.fields, storage, name);
      assert Coerce(v, storage) == CoerceStruct(NormalizeBlobInput(v).value.fields, storage);
    }
  }

  /** An object whose source is normalised is taken exactly as its columns say. */
  lemma StructSucceeds(fields: map<string, Value>, storage: Field)
    requires !Get(fields, "data").ArrayBuffer? && !Get(fields, "uri").Url?
    ensures CoerceStruct(fields, storage).Ok? <==> OnlyBlobKeys(fields) && FieldsFit(fields, storage)
  {
    RangePayload(Get(fields, "position"), 0);
    RangePayload(Get(fields, "size"), 1);
    assert (exists k | k in fields :: !IsBlobKey(k)) <==> !OnlyBlobKeys(fields);
  }

  predicate FieldsFit(fields: map<string, Value>, storage: Field) {
    ColumnsFit(Cell(Get(fields, "data")), Cell(Get(fields, "uri")), Cell(Get(fields, "position")),
               Cell(Get(fields, "size")), storage)
  }

  lemma ObjectSucceeds(v: Value, storage: Field)
    requires v.Record? || v.Instance?
    ensures Coerce(v, storage).Ok? <==> OnlyBlobKeys(v.fields) && FieldsFit(v.fields, storage)
  {
    if IsBlobStruct(v) && BlobToRead(v).None? {
      NormalizedObject(v, "data");
      NormalizedObject(v, "uri");
      NormalizedObject(v, "position");
      NormalizedObject(v, "size");
      NormalizedKeys(v);
      StructSucceeds(NormalizeBlobInput(v).value.fields, storage);
      assert Coerce(v, storage) == CoerceStruct(NormalizeBlobInput(v).value.fields, storage);
    }
  }

  /** A value coerces exactly when it is something that a blob column takes. */
  lemma CoerceSucceeds(v: Value, storage: Field)
    ensures Coerce(v, storage).Ok? <==> TakenAsBlob(v, storage)
  {
    if v.Record? || v.Instance? { ObjectSucceeds(v, storage); }
  }

  /** The storage has only columns of a blob. */
  predicate OnlyBlobColumns(storage: Field) {
    storage.typ.Struct? && forall i | 0 <= i < |storage.typ.children| :: IsBlobKey(storage.typ.children[i].name)
  }

  /**
   * The widened object still has the source of the blob and nothing that the second coercion
   * refuses. Storage with two columns, or of another type, is not widened.
   */
  predicate Survives(v: Value, storage: Field) {
    storage.typ.Struct? && |storage.typ.children| != 2 ==> OnlyBlobColumns(storage) && HasChild(storage, SourceOf(v))
  }

  /** The range columns of a first-pass value are columns of the field. */
  predicate Keeps(restricted: Field, w: Value) {
    w.Record? ==>
      ("position" in w.fields ==> HasChild(restricted, "position")) &&
      ("size" in w.fields ==> HasChild(restricted, "size"))
  }

  /** Against its own storage a first-pass value has lost nothing. */
  lemma StorageKeepsItself(v: Value, storage: Field)
    requires FirstPass(v, storage).Ok?
    ensures Keeps(storage, FirstPass(v, storage).value)
  {
    if !v.Undefined? && Coerce(v, storage).value.Some? && storage.typ.Struct? {
      WidenedColumns(Coerce(v, storage).value.value, storage);
    }
  }

  lemma AsRecordCoercesBack(b: BlobValue, restricted: Field)
    requires Normal(b) && Keeps(restricted, AsRecord(b))
    ensures Coerce(AsRecord(b), restricted) == Ok(Some(b))
  {
    var w := AsRecord(b);
    assert "data" in w.fields && "uri" in w.fields;
    assert b.position.Some? ==> "position" in w.fields && "size" in w.fields;
  }

  lemma WidenedColumns(b: BlobValue, storage: Field)
    requires storage.typ.Struct?
    ensures forall k :: k in Widened(b, storage.typ.children).fields <==> HasChild(storage, k)
    ensures forall k | HasChild(storage, k) :: Widened(b, storage.typ.children).fields[k] == BlobColumn(b, k)
  {
  }

  /** Every property of an object is a column of a normalised blob, with the range columns if it has a range. */
  predicate ColumnsOf(b: BlobValue, fields: map<string, Value>) {
    && Normal(b) && (forall k | k in fields :: fields[k] == BlobColumn(b, k))
    && (b.position.Some? ==> "position" in fields && "size" in fields)
  }

  lemma ColumnsRead(b: BlobValue, fields: map<string, Value>)
    requires ColumnsOf(b, fields)
    ensures Get(fields, "data") == if "data" in fields then BlobColumn(b, "data") else Undefined
    ensures Get(fields, "uri") == if "uri" in fields then BlobColumn(b, "uri") else Undefined
    ensures IsNullish(Get(fields, "position")) <==> b.position.None?
    ensures IsNullish(Get(fields, "size")) <==> b.position.None?
    ensures b.position.Some? ==>
              && Get(fields, "position") == BigInt(b.position.value) && Get(fields, "size") == BigInt(b.size.value)
  {
  }

  /** Coercing an object whose properties are columns of a normalised blob. */
  lemma ColumnsCoerce(b: BlobValue, fields: map<string, Value>, restricted: Field)
    requires ColumnsOf(b, fields)
    requires b.position.Some? ==> HasChild(restricted, "position") && HasChild(restricted, "size")
    ensures Coerce(Record(fields), restricted) ==
            if Source(b) in fields && forall k | k in fields :: IsBlobKey(k) then Ok(Some(b)) else Err
  {
    ColumnsRead(b, fields);
    assert Coerce(Record(fields), restricted) == CoerceStruct(fields, restricted);
  }

  lemma WidenedCoercesBack(b: BlobValue, storage: Field, restricted: Field)
    requires Normal(b) && storage.typ.Struct? && |storage.typ.children| != 2
    requires Keeps(restricted, Widened(b, storage.typ.children))
    requires b.position.Some? ==> HasChild(storage, "position") && HasChild(storage, "size")
    ensures Coerce(Widened(b, storage.typ.children), restricted) ==
            if OnlyBlobColumns(storage) && HasChild(storage, Source(b)) then Ok(Some(b)) else Err
  {
    var w := Widened(b, storage.typ.children);
    WidenedColumns(b, storage);
    ColumnsCoerce(b, w.fields, restricted);
    assert (forall k | k in w.fields :: IsBlobKey(k)) <==> OnlyBlobColumns(storage) by {
      forall i | 0 <= i < |storage.typ.children| ensures storage.typ.children[i].name in w.fields {}
    }
  }

  /**
   * The two coercions agree: a value passed by the first and widened goes through the second
   * exactly when the storage kept the source of the blob and has no other columns, and then
   * both give the same result. Null and missing values stay null blobs.
   */
  lemma CoercionsAgree(v: Value, storage: Field, restricted: Field)
    requires FirstPass(v, storage).Ok? && Keeps(restricted, FirstPass(v, storage).value)
    ensures Coerce(v, storage).Ok?
    ensures Coerce(FirstPass(v, storage).value, restricted) ==
            if IsNullish(v) || Survives(v, storage) then Coerce(v, storage) else Err
  {
    CoercedColumns(v, storage);
    match Coerce(v, storage)
    case Ok(Some(b)) =>
      if !storage.typ.Struct? || |storage.typ.children| == 2 {
        AsRecordCoercesBack(b, restricted);
      } else {
        WidenedCoercesBack(b, storage, restricted);
      }
    case _ =>
  }

  /** Against the storage itself the two coercions agree whenever the widened value survives. */
  lemma OwnStorageAgrees(v: Value, storage: Field)
    requires FirstPass(v, storage).Ok?
    ensures Coerce(v, storage).Ok?
    ensures Coerce(FirstPass(v, storage).value, storage) ==
            if IsNullish(v) || Survives(v, storage) then Coerce(v, storage) else Err
  {
    StorageKeepsItself(v, storage);
    CoercionsAgree(v, storage, storage);
  }

  /** The storage that `blob()` declares. */
  function BlobStorage(name: string): Field {
    Field(name,
          Struct([Field("data", LARGE_BINARY, true, map[]), Field("uri", UTF8, true, map[]),
                  Field("position", UINT64, true, map[]), Field("size", UINT64, true, map[])]),
          true, map["ARROW:extension:name" := "lance.blob.v2"])
  }

  lemma DeclaredStorageHasAll(name: string, v: Value)
    ensures Survives(v, BlobStorage(name))
  {
    var storage := BlobStorage(name);
    var children := storage.typ.children;
    assert children[0].name == "data";
    assert children[1].name == "uri";
    assert children[2].name == "position";
    assert children[3].name == "size";
    forall i | 0 <= i < |children| ensures IsBlobKey(children[i].name) {
      assert i == 0 || i == 1 || i == 2 || i == 3;
    }
  }

  /** With the storage that `blob()` declares nothing is ever lost on the way. */
  lemma DeclaredStorageSurvives(v: Value, name: string, restricted: Field)
    requires FirstPass(v, BlobStorage(name)).Ok? && Keeps(restricted, FirstPass(v, BlobStorage(name)).value)
    ensures Coerce(FirstPass(v, BlobStorage(name)).value, restricted) == Coerce(v, BlobStorage(name))
  {
    CoercionsAgree(v, BlobStorage(name), restricted);
    DeclaredStorageHasAll(name, v);
  }
}
