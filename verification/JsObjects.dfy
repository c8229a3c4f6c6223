/** JavaScript objects and arrays as the runtime has them: references that may be shared. */
module JsObjects {
  import opened Values
  import opened Blobs
  import opened Columns

  /** A reference as code holds it. Values that nobody looks into are themselves. */
  datatype Ref = Atom(value: Value) | ObjectRef(obj: JsObject) | ArrayRef(arr: JsArray)

  /** An object: plain, or with another prototype. */
  class JsObject {
    const plain: bool
    var props: map<string, Ref>

    constructor (plain: bool, props: map<string, Ref>)
      ensures this.plain == plain && this.props == props
    {
      this.plain, this.props := plain, props;
    }
  }

  class JsArray {
    var items: seq<Ref>

    constructor (items: seq<Ref>)
      ensures this.items == items
    {
      this.items := items;
    }
  }

  /** The objects of a heap show, at a reference, a value. Two references may share an object. */
  ghost predicate Shows(heap: set<object>, r: Ref, v: Value)
    reads heap
    decreases v
  {
    if v.Record? || v.Instance? then
      r.ObjectRef? && r.obj in heap && r.obj.plain == v.Record? && r.obj.props.Keys == v.fields.Keys &&
      forall name | name in v.fields :: Shows(heap, r.obj.props[name], v.fields[name])
    else if v.Array? then
      r.ArrayRef? && r.arr in heap && |r.arr.items| == |v.items| &&
      forall i | 0 <= i < |v.items| :: Shows(heap, r.arr.items[i], v.items[i])
    else r == Atom(v)
  }

  /** More objects do not change what is shown. */
  lemma {:induction false} ShowsMore(heap: set<object>, more: set<object>, r: Ref, v: Value)
    requires Shows(heap, r, v) && heap <= more
    ensures Shows(more, r, v)
    decreases v
  {
    if v.Record? || v.Instance? {
      forall name | name in v.fields ensures Shows(more, r.obj.props[name], v.fields[name]) {
        ShowsMore(heap, more, r.obj.props[name], v.fields[name]);
      }
    } else if v.Array? {
      forall i | 0 <= i < |v.items| ensures Shows(more, r.arr.items[i], v.items[i]) {
        ShowsMore(heap, more, r.arr.items[i], v.items[i]);
      }
    }
  }

  /** The references under the names of an object. */
  function PropsOf(r: Ref): map<string, Ref>
    reads if r.ObjectRef? then {r.obj} else {}
  {
    if r.ObjectRef? then r.obj.props else map[]
  }

  predicate IsObjectRef(r: Ref) {
    r.ObjectRef? || (r.Atom? && IsObject(r.value))
  }

  /** `record[name]`. */
  function GetRef(props: map<string, Ref>, name: string): Ref {
    if name in props then props[name] else Atom(Undefined)
  }

  /** The properties of an object are shown by its references. */
  ghost predicate ShowsProps(heap: set<object>, refs: map<string, Ref>, props: map<string, Value>)
    reads heap
  {
    refs.Keys == props.Keys && forall name | name in props :: Shows(heap, refs[name], props[name])
  }

  lemma ShownObject(heap: set<object>, r: Ref, v: Value)
    requires Shows(heap, r, v)
    ensures IsObjectRef(r) <==> IsObject(v)
    ensures r.ObjectRef? ==> r.obj in heap
    ensures ShowsProps(heap, PropsOf(r), Properties(v))
  {
  }

  lemma ShownArray(heap: set<object>, r: Ref, v: Value)
    requires Shows(heap, r, v)
    ensures r.ArrayRef? <==> v.Array?
    ensures r.ArrayRef? ==> r.arr in heap
  {
  }

  lemma ShowsPropsMore(heap: set<object>, more: set<object>, refs: map<string, Ref>, props: map<string, Value>)
    requires ShowsProps(heap, refs, props) && heap <= more
    ensures ShowsProps(more, refs, props)
  {
    forall name | name in props ensures Shows(more, refs[name], props[name]) {
      ShowsMore(heap, more, refs[name], props[name]);
    }
  }

  /** One property set to another reference. */
  lemma ShowsPut(heap: set<object>, refs: map<string, Ref>, props: map<string, Value>, name: string, r: Ref, v: Value)
    requires ShowsProps(heap, refs, props) && Shows(heap, r, v)
    ensures ShowsProps(heap, refs[name := r], props[name := v])
  {
  }

  lemma ShowsGet(heap: set<object>, refs: map<string, Ref>, props: map<string, Value>, name: string)
    requires ShowsProps(heap, refs, props)
    ensures Shows(heap, GetRef(refs, name), Get(props, name))
  {
  }

  /** A plain object with shown properties shows their record. */
  lemma ShowsNew(heap: set<object>, more: set<object>, obj: JsObject, props: map<string, Value>)
    requires heap <= more && obj in more && obj.plain && ShowsProps(heap, obj.props, props)
    ensures Shows(more, ObjectRef(obj), Record(props))
  {
    ShowsPropsMore(heap, more, obj.props, props);
  }
}
