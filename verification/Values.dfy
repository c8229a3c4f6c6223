/** The JavaScript values that rows carry, and the failure-free wrappers the model uses. */
module Values {

  datatype Option<+T> = None | Some(value: T)

  /** Every thrown error is one tag: messages and row numbers are not modelled. */
  datatype Result<+T> = Ok(value: T) | Err

  type Path = seq<string>
  type Bytes = seq<bv8>

  /** A row by its property names. */
  type Row = map<string, Value>

  /** A JavaScript number, as far as the code looks into one. */
  datatype Num = SafeInteger(i: int) | OtherNumber(id: nat)

  /**
   * A JavaScript value. `Record` is a plain object, `Instance` an object with another
   * prototype, `Builtin` one of RegExp, Date, Set and Map, `Opaque` a function.
   * A `TypedArray` names its Arrow element class, if `typedArrayToArrowType` knows one.
   * Property order and prototype chains are not part of a value.
   */
  datatype Value =
    | Undefined
    | Null
    | Boolean(truth: bool)
    | BigInt(big: int)
    | Number(num: Num)
    | Text(text: string)
    | Buffer(bytes: Bytes)
    | Uint8Array(bytes: Bytes)
    | TypedArray(element: Option<nat>, length: nat)
    | DataView(id: nat)
    | ArrayBuffer(bytes: Bytes)
    | Url(href: string)
    | BlobHandle(id: nat)
    | Builtin(id: nat)
    | Opaque(id: nat)
    | Instance(fields: map<string, Value>)
    | Array(items: seq<Value>)
    | Record(fields: map<string, Value>)

  /** The `value == null` test: null or undefined. */
  predicate IsNullish(v: Value) {
    v.Null? || v.Undefined?
  }
}
