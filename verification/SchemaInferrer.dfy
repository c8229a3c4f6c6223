/**
 * `SchemaInferrer` as the code runs it: a loop over rows that updates linked trees in place.
 * Every method is proved against the functions of the other inference modules.
 */
module SchemaInferrer {
  import opened Values
  import opened ArrowTypes
  import opened FieldTrees
  import opened FieldTreeStore
  import opened TypeInference
  import opened TypeMeaning
  import opened SchemaInference
  import Guided = SchemaGuidedInference

  // ---------------------------------------------------------------- rows to observations

  /** `isRecord`: a plain object with at least one property. */
  predicate IsRecord(v: Value) {
    v.Record? && v.fields != map[]
  }

  /** `path` leads through records to `v`, a value of its own that is not undefined. */
  ghost predicate IsLeaf(row: map<string, Value>, path: Path, v: Value)
    decreases |path|
  {
    path != [] && path[0] in row &&
    var x := row[path[0]];
    if IsRecord(x) then IsLeaf(x.fields, path[1..], v)
    else |path| == 1 && x == v && !x.Undefined?
  }

  /** Every leaf of every row is observed, and nothing else is. */
  ghost predicate Enumerates(rows: seq<map<string, Value>>, os: seq<Obs>) {
    && (forall o {:trigger FromRows(rows, o)} | o in os :: FromRows(rows, o))
    && (forall row, path, v {:trigger Observed(os, path, v), IsLeaf(row, path, v)} |
          row in rows && IsLeaf(row, path, v) :: Observed(os, path, v))
  }

  /** The observations of one row, in some order of its leaves. */
  ghost predicate LeavesOf(row: map<string, Value>, os: seq<Obs>) {
    && (forall o | o in os :: IsLeaf(row, o.path, o.value))
    && (forall path, v {:trigger Observed(os, path, v), IsLeaf(row, path, v)} |
          IsLeaf(row, path, v) :: Observed(os, path, v))
  }

  /** Row after row: the leaves of the first row, then those of the second, and so on. */
  ghost predicate InOrder(rows: seq<map<string, Value>>, os: seq<Obs>)
    decreases |rows|
  {
    if rows == [] then os == []
    else exists k | 0 <= k <= |os| :: InOrder(rows[..|rows| - 1], os[..k]) && LeavesOf(rows[|rows| - 1], os[k..])
  }

  lemma {:induction false} InOrderEnumerates(rows: seq<map<string, Value>>, os: seq<Obs>)
    requires InOrder(rows, os)
    ensures Enumerates(rows, os) && Proper(os)
    decreases |rows|
  {
    if rows != [] {
      var last := |rows| - 1;
      var k :| 0 <= k <= |os| && InOrder(rows[..last], os[..k]) && LeavesOf(rows[last], os[k..]);
      InOrderEnumerates(rows[..last], os[..k]);
      assert os == os[..k] + os[k..] && rows == rows[..last] + [rows[last]];
      forall o | o in os ensures FromRows(rows, o) && o.path != [] {
        if o in os[..k] {
          assert FromRows(rows[..last], o);
        } else {
          assert o in os[k..] && rows[last] in rows;
        }
      }
      forall row, path, v | row in rows && IsLeaf(row, path, v) ensures Observed(os, path, v) {
        assert row in rows[..last] ==> Observed(os[..k], path, v);
        assert row == rows[last] ==> Observed(os[k..], path, v);
      }
    }
  }

  ghost predicate FromRows(rows: seq<map<string, Value>>, o: Obs) {
    exists row :: row in rows && IsLeaf(row, o.path, o.value)
  }

  ghost predicate Observed(os: seq<Obs>, path: Path, v: Value) {
    exists o :: o in os && o.path == path && o.value == v
  }

  /** `recordPathsAndValues`; which property comes first is left open. */
  method RecordPathsAndValues(row: map<string, Value>) returns (out: seq<(Path, Value)>)
    ensures forall path, v :: (path, v) in out <==> IsLeaf(row, path, v)
    decreases Record(row)
  {
    out := [];
    var left := row.Keys;
    while left != {}
      invariant left <= row.Keys
      invariant forall path, v :: (path, v) in out <==> IsLeaf(row, path, v) && path[0] !in left
      decreases left
    {
      var name :| name in left;
      var x := row[name];
      if IsRecord(x) {
        assert x == Record(row).fields[name] && x == Record(x.fields);
        var below := RecordPathsAndValues(x.fields);
        LeavesBelow(row, name, below);
        out := out + Prefixed(name, below);
      } else if !x.Undefined? {
        OwnLeaf(row, name);
        out := out + [([name], x)];
      }
      left := left - {name};
    }
  }

  /** The leaves under a name that holds a record. */
  lemma LeavesBelow(row: map<string, Value>, name: string, below: seq<(Path, Value)>)
    requires name in row && IsRecord(row[name])
    requires forall path, v :: (path, v) in below <==> IsLeaf(row[name].fields, path, v)
    ensures forall path, v :: (path, v) in Prefixed(name, below) <==> IsLeaf(row, path, v) && path[0] == name
  {
    forall path, v ensures (path, v) in Prefixed(name, below) <==> IsLeaf(row, path, v) && path[0] == name {
      assert path != [] && path[0] == name ==> path == [name] + path[1..];
      assert forall q :: ([name] + q)[1..] == q;
    }
  }

  /** The leaf that a name holds itself. */
  lemma OwnLeaf(row: map<string, Value>, name: string)
    requires name in row && !IsRecord(row[name]) && !row[name].Undefined?
    ensures forall path, v :: (path, v) in [([name], row[name])] <==> IsLeaf(row, path, v) && path[0] == name
  {
    forall path, v ensures (path, v) in [([name], row[name])] <==> IsLeaf(row, path, v) && path[0] == name {
      assert |path| == 1 && path[0] == name <==> path == [name];
    }
  }

  function Prefixed(name: string, entries: seq<(Path, Value)>): (r: seq<(Path, Value)>)
    ensures forall path, v :: (path, v) in r <==> exists q :: (q, v) in entries && path == [name] + q
  {
    if entries == [] then [] else [([name] + entries[0].0, entries[0].1)] + Prefixed(name, entries[1..])
  }

  // ---------------------------------------------------------------- the type of one value

  /** `inferType`, with its recursion through `inferArrayItemType`. */
  method InferValueType(opts: Options, v: Value, path: Path, id: nat) returns (t: Option<DataType>)
    requires path != []
    ensures t == InferType(opts, v, path, id)
    decreases v, 0
  {
    if !v.Array? || v.items == [] {
      return InferType(opts, v, path, id);
    }
    if |path| == 1 && path[0] in opts.vectorColumns {
      return Some(FixedSizeList(|v.items|, Item(opts.vectorColumns[path[0]])));
    }
    var itemType := InferArrayItemType(opts, v.items, path, id);
    if itemType.None? {
      return None;
    }
    return Some(if NameSuggestsVectorColumn(path[|path| - 1])
                then FixedSizeList(|v.items|, Item(FLOAT32))
                else List(Item(itemType.value)));
  }

  /** `inferArrayItemType`: one pass that finds the type and collects the undecided items. */
  method InferArrayItemType(opts: Options, values: seq<Value>, path: Path, id: nat) returns (t: Option<DataType>)
    requires path != []
    ensures t == ItemType(opts, values, path, id)
    decreases values, 0
  {
    t := None;
    var undecided := [];
    var i := 0;
    while i < |values|
      invariant 0 <= i <= |values|
      invariant t == FirstType(opts, values[..i], path, id)
      invariant forall v :: v in undecided <==> v in values[..i] && InferType(opts, v, path, id).None?
      invariant t.Some? ==> forall v | v in values[..i] && InferType(opts, v, path, id).Some? ::
                  TypesEqual(t.value, InferType(opts, v, path, id).value)
    {
      var v := values[i];
      var candidate := InferValueType(opts, v, path, id);
      assert values[..i + 1] == values[..i] + [v];
      FirstTypeSnoc(opts, values[..i], v, path, id);
      FirstTypeKeeps(opts, values, i, path, id);
      if candidate.None? {
        if !IsDeferred(v) {
          UndecidableItem(opts, values, i, path, id);
          return None;
        }
        undecided := undecided + [v];
      } else if t.None? {
        t := candidate;
        TypesEqualReflexive(candidate.value);
        forall u | u in values[..i]
          ensures InferType(opts, u, path, id).None?
        {
          FirstTypeNone(opts, values[..i], path, id, u);
        }
      } else if !TypesEqual(t.value, candidate.value) {
        OtherItemType(opts, values, i, path, id, t.value);
        return None;
      }
      i := i + 1;
    }
    assert values[..i] == values;
    PassDecides(opts, values, path, id, undecided, t);
    if t.Some? && exists v | v in undecided :: !DeferredMatches(v, t.value) {
      return None;
    }
  }

  /** An item without a type that is not deferred either. */
  lemma UndecidableItem(opts: Options, values: seq<Value>, i: nat, path: Path, id: nat)
    requires path != [] && i < |values| && InferType(opts, values[i], path, id).None? && !IsDeferred(values[i])
    ensures ItemType(opts, values, path, id).None?
  {
    var t := FirstType(opts, values, path, id);
    if t.Some? && DeferredMatches(values[i], t.value) { MatchingIsDeferred(values[i], t.value); }
  }

  /** An item with another type than the first. */
  lemma OtherItemType(opts: Options, values: seq<Value>, i: nat, path: Path, id: nat, t: DataType)
    requires path != [] && i < |values| && FirstType(opts, values, path, id) == Some(t)
    requires InferType(opts, values[i], path, id).Some? && !TypesEqual(t, InferType(opts, values[i], path, id).value)
    ensures ItemType(opts, values, path, id).None?
  {
    assert !Agrees(opts, values[i], path, id, t);
  }

  /** After the pass only the undecided items are left to be compared with the type. */
  lemma PassDecides(
    opts: Options, values: seq<Value>, path: Path, id: nat, undecided: seq<Value>, t: Option<DataType>)
    requires path != [] && t == FirstType(opts, values, path, id)
    requires forall v :: v in undecided <==> v in values && InferType(opts, v, path, id).None?
    requires t.Some? ==> forall v | v in values && InferType(opts, v, path, id).Some? ::
               TypesEqual(t.value, InferType(opts, v, path, id).value)
    ensures ItemType(opts, values, path, id) ==
            if t.Some? && forall v | v in undecided :: DeferredMatches(v, t.value) then t else None
  {
    if t.Some? {
      if forall v | v in undecided :: DeferredMatches(v, t.value) {
        forall k | 0 <= k < |values| ensures Agrees(opts, values[k], path, id, t.value) {
          assert values[k] in values;
        }
      }
      forall v | v in undecided && !DeferredMatches(v, t.value)
        ensures exists k | 0 <= k < |values| :: !Agrees(opts, values[k], path, id, t.value)
      {
        var k :| 0 <= k < |values| && values[k] == v;
        assert !Agrees(opts, values[k], path, id, t.value);
      }
    }
  }

  lemma {:induction false} FirstTypeSnoc(opts: Options, items: seq<Value>, v: Value, path: Path, id: nat)
    requires path != []
    ensures FirstType(opts, items + [v], path, id) ==
            if FirstType(opts, items, path, id).Some? then FirstType(opts, items, path, id)
              else InferType(opts, v, path, id)
    decreases |items|
  {
    if items == [] {
      assert items + [v] == [v];
      assert [v][1..] == [];
    } else {
      assert (items + [v])[1..] == items[1..] + [v];
      FirstTypeSnoc(opts, items[1..], v, path, id);
    }
  }

  /** A type found in a prefix is the type found. */
  lemma {:induction false} FirstTypeKeeps(opts: Options, items: seq<Value>, k: nat, path: Path, id: nat)
    requires path != [] && k <= |items|
    ensures FirstType(opts, items[..k], path, id).Some? ==>
            FirstType(opts, items, path, id) == FirstType(opts, items[..k], path, id)
    decreases |items|
  {
    if k > 0 {
      assert items[..k][0] == items[0] && items[..k][1..] == items[1..][..k - 1];
      FirstTypeKeeps(opts, items[1..], k - 1, path, id);
    }
  }

  lemma {:induction false} FirstTypeNone(opts: Options, items: seq<Value>, path: Path, id: nat, v: Value)
    requires path != [] && v in items && FirstType(opts, items, path, id).None?
    ensures InferType(opts, v, path, id).None?
    decreases |items|
  {
    if v != items[0] { FirstTypeNone(opts, items[1..], path, id, v); }
  }

  // ---------------------------------------------------------------- the stateful inferrer

  /** One observation in either mode, on the tree as a value. */
  function Advance(opts: Options, schema: Option<seq<Field>>, n: Node, o: Obs): Result<Node>
    requires n.Branch? && o.path != []
  {
    if schema.None? then SchemaInference.Observe(opts, n, o) else Guided.Observe(schema.value, n, o)
  }

  function AdvanceAll(opts: Options, schema: Option<seq<Field>>, os: seq<Obs>): (r: Result<Node>)
    requires Proper(os)
    ensures r.Ok? ==> r.value.Branch? && WellFormed(r.value)
  {
    if schema.None? then SchemaInference.ObserveAll(opts, os) else Guided.ObserveAll(schema.value, os)
  }

  lemma AdvanceSnoc(opts: Options, schema: Option<seq<Field>>, os: seq<Obs>, o: Obs)
    requires Proper(os) && o.path != []
    ensures Proper(os + [o])
    ensures AdvanceAll(opts, schema, os + [o]) ==
            match AdvanceAll(opts, schema, os) case Err => Err case Ok(n) => Advance(opts, schema, n, o)
  {
    var os' := os + [o];
    assert os'[..|os'| - 1] == os && os'[|os'| - 1] == o;
    assert forall x | x in os' :: x in os || x == o;
  }

  /** What `infer` returns for a sequence of observations, in either mode. */
  function Outcome(opts: Options, schema: Option<seq<Field>>, os: seq<Obs>): Result<seq<Field>>
    requires Proper(os) && (schema.Some? ==> DistinctNames(schema.value))
  {
    if schema.None? then SchemaInference.Infer(opts, os) else Guided.Infer(schema.value, os)
  }

  class Inferrer {
    const opts: Options
    const schema: Option<seq<Field>>
    const fields: FieldTree
    var nextId: nat
    ghost var nodes: set<FieldTree>
    ghost var tree: Node

    /** The linked trees mirror `tree`. */
    ghost predicate Valid()
      reads this, nodes
    {
      Mirrors(Snapshot(nodes), fields, tree)
    }

    constructor (opts: Options, schema: Option<seq<Field>>)
      ensures Valid() && fresh(nodes) && tree == EMPTY
      ensures this.opts == opts && this.schema == schema
    {
      this.opts, this.schema := opts, schema;
      nextId := 0;
      fields := new FieldTree();
      nodes, tree := {fields}, EMPTY;
    }

    /** `fields.set`, keeping the mirrored value up to date. */
    method Put(path: Path, leaf: Leaf, replaceNulls: bool) returns (ok: bool)
      requires Valid() && path != []
      modifies this, nodes
      ensures Valid() && fresh(nodes - old(nodes)) && old(nodes) <= nodes && nextId == old(nextId)
      ensures ok <==> FieldTrees.Set(old(tree), path, leaf, replaceNulls).Some?
      ensures tree == if ok then FieldTrees.Set(old(tree), path, leaf, replaceNulls).value else old(tree)
    {
      ghost var nodes';
      ok, nodes' := fields.Set(path, leaf, replaceNulls, nodes, tree);
      if ok {
        nodes, tree := nodes', FieldTrees.Set(tree, path, leaf, replaceNulls).value;
      }
    }

    /** `observe` with `addField`, `addSchemaField`, `updateInferredField` and `resolveDeferredField`. */
    method Observe(path: Path, value: Value) returns (ok: bool)
      requires Valid() && path != []
      modifies this, nodes
      ensures Valid() && fresh(nodes - old(nodes)) && old(nodes) <= nodes
      ensures ok <==> Advance(opts, schema, old(tree), Obs(path, value, old(nextId))).Ok?
      ensures ok ==> tree == Advance(opts, schema, old(tree), Obs(path, value, old(nextId))).value
    {
      var id := nextId;
      nextId := nextId + 1;
      if !Supported(value) {
        return false;
      }
      var current := fields.Get(path, nodes, tree);
      if schema.Some? {
        ok := ObserveWithSchema(path, value, id, current);
      } else {
        ok := ObserveFreely(path, value, id, current);
      }
    }

    method ObserveFreely(path: Path, value: Value, id: nat, current: Reading) returns (ok: bool)
      requires Valid() && path != [] && Supported(value) && schema.None? && current == Read(tree, path)
      modifies this, nodes
      ensures Valid() && fresh(nodes - old(nodes)) && old(nodes) <= nodes
      ensures ok <==> SchemaInference.Observe(opts, old(tree), Obs(path, value, id)).Ok?
      ensures ok ==> tree == SchemaInference.Observe(opts, old(tree), Obs(path, value, id)).value
    {
      var newType := InferValueType(opts, value, path, id);
      match current
      case Absent =>
        if newType.None? && !IsDeferred(value) {
          return false;
        }
        ok := Put(path, if newType.Some? then Typed(newType.value) else Deferred([value]), true);
      case Inner =>
        return IsNullish(value);
      case Evidence(Typed(t)) =>
        return if newType.Some? then TypesEqual(t, newType.value) else DeferredMatches(value, t);
      case Evidence(Deferred(values)) =>
        if newType.Some? {
          if !AllMatch(values, newType.value) {
            return false;
          }
          var _ := Put(path, Typed(newType.value), false);
          return true;
        }
        if !IsDeferred(value) {
          return false;
        }
        var _ := Put(path, Deferred(values + [value]), false);
        return true;
    }

    method ObserveWithSchema(path: Path, value: Value, ghost id: nat, current: Reading) returns (ok: bool)
      requires Valid() && path != [] && Supported(value) && schema.Some? && current == Read(tree, path)
      modifies this, nodes
      ensures Valid() && fresh(nodes - old(nodes)) && old(nodes) <= nodes
      ensures ok <==> Guided.Observe(schema.value, old(tree), Obs(path, value, id)).Ok?
      ensures ok ==> tree == Guided.Observe(schema.value, old(tree), Obs(path, value, id)).value
    {
      if current.Inner? || (current.Evidence? && current.leaf.Typed? && current.leaf.typ.Struct?) {
        return Guided.StructValue(value);
      }
      if current.Evidence? && (current.leaf.Typed? || IsNullish(value)) {
        return true;
      }
      var field := FieldAtPath(schema.value, path);
      if field.None? || (field.value.typ.Struct? && !Guided.StructValue(value)) {
        return false;
      }
      ok := Put(path, if IsDeferred(value) then Deferred([value]) else Typed(field.value.typ), true);
    }

    /** The observations of one row; nothing more is done once one has failed. */
    method ObserveRow(
      entries: seq<(Path, Value)>, so: bool, ghost before: seq<Obs>) returns (ok: bool, ghost os: seq<Obs>)
      requires Valid() && Proper(before) && forall e | e in entries :: e.0 != []
      requires AdvanceAll(opts, schema, before) == if so then Ok(tree) else Err
      modifies this, nodes
      ensures Valid() && fresh(nodes - old(nodes)) && old(nodes) <= nodes
      ensures Proper(os) && |os| == |before| + |entries| && os[..|before|] == before
      ensures forall k | 0 <= k < |entries| :: (os[|before| + k].path, os[|before| + k].value) == entries[k]
      ensures AdvanceAll(opts, schema, os) == if ok then Ok(tree) else Err
    {
      ok, os := so, before;
      var j := 0;
      while j < |entries|
        invariant 0 <= j <= |entries| && Valid() && fresh(nodes - old(nodes)) && old(nodes) <= nodes
        invariant Proper(os) && |os| == |before| + j && os[..|before|] == before
        invariant forall k | 0 <= k < j :: (os[|before| + k].path, os[|before| + k].value) == entries[k]
        invariant AdvanceAll(opts, schema, os) == if ok then Ok(tree) else Err
      {
        var (path, value) := entries[j];
        assert (path, value) in entries;
        ghost var o := Obs(path, value, nextId);
        AdvanceSnoc(opts, schema, os, o);
        if ok {
          ok := Observe(path, value);
        }
        os := os + [o];
        j := j + 1;
      }
    }

    /**
     * `infer`: observes every leaf of every row and reads the fields off the tree. `os` is the
     * sequence of observations made.
     */
    method Infer(rows: seq<map<string, Value>>) returns (r: Result<seq<Field>>, ghost os: seq<Obs>)
      requires Valid() && tree == EMPTY && (schema.Some? ==> DistinctNames(schema.value))
      modifies this, nodes
      ensures Proper(os) && InOrder(rows, os) && Enumerates(rows, os)
      ensures r == Outcome(opts, schema, os)
    {
      os := [];
      var ok := true;
      var i := 0;
      while i < |rows|
        invariant 0 <= i <= |rows| && Valid() && fresh(nodes - old(nodes)) && old(nodes) <= nodes
        invariant Proper(os) && InOrder(rows[..i], os)
        invariant AdvanceAll(opts, schema, os) == if ok then Ok(tree) else Err
      {
        var entries := RecordPathsAndValues(rows[i]);
        ghost var made;
        ok, made := ObserveRow(entries, ok, os);
        InOrderRow(rows, i, os, made, entries);
        os, i := made, i + 1;
      }
      assert rows[..i] == rows;
      InOrderEnumerates(rows, os);
      if !ok {
        return Err, os;
      }
      r := ReadOff(os);
    }

    /** The fields of the finished tree. */
    method ReadOff(ghost os: seq<Obs>) returns (r: Result<seq<Field>>)
      requires Valid() && Proper(os) && (schema.Some? ==> DistinctNames(schema.value))
      requires AdvanceAll(opts, schema, os) == Ok(tree)
      ensures r == Outcome(opts, schema, os)
    {
      if schema.None? {
        r := ReadFields(fields, nodes, tree);
      } else {
        Guided.CastsAreValid(schema.value, os);
        var matches := ReadMatching(schema.value, fields, nodes, tree);
        r := Ok(matches);
      }
    }
  }

  lemma InOrderRow(
    rows: seq<map<string, Value>>, i: nat, before: seq<Obs>, os: seq<Obs>, entries: seq<(Path, Value)>)
    requires i < |rows| && InOrder(rows[..i], before)
    requires forall path, v :: (path, v) in entries <==> IsLeaf(rows[i], path, v)
    requires |os| == |before| + |entries| && os[..|before|] == before
    requires forall k | 0 <= k < |entries| :: (os[|before| + k].path, os[|before| + k].value) == entries[k]
    ensures InOrder(rows[..i + 1], os)
  {
    var more, made := rows[..i + 1], os[|before|..];
    assert more[..i] == rows[..i] && more[i] == rows[i];
    forall o | o in made ensures IsLeaf(rows[i], o.path, o.value) {
      var k :| 0 <= k < |made| && made[k] == o;
      assert os[|before| + k] == o && (o.path, o.value) == entries[k];
    }
    forall path, v | IsLeaf(rows[i], path, v) ensures Observed(made, path, v) {
      var k :| 0 <= k < |entries| && entries[k] == (path, v);
      assert os[|before| + k] == made[k] && made[k] in made;
    }
    assert LeavesOf(rows[i], os[|before|..]);
  }

  // ---------------------------------------------------------------- reading the tree off

  /** The objects under `t` show what `n` shows. */
  ghost predicate Shows(h: Store, t: FieldTree, n: Node) {
    && Closed(h) && t in h
    && n.Branch? && WellFormed(n) && forall q :: StoreLook(h, t, q) == LookAt(n, q)
  }

  /** What one name shows. */
  lemma LooksOneStep(h: Store, t: FieldTree, n: Node, name: string)
    requires Closed(h) && t in h && n.Branch?
    ensures StoreLook(h, t, [name]).Nothing? <==> name !in h[t].children
    ensures name in h[t].children ==>
              StoreLook(h, t, [name]) ==
              match h[t].children[name]
              case LeafChild(leaf) => Leafy(leaf)
              case TreeChild(sub) => assert Step(h, t, name).Some?; Tree(h[sub].names)
    ensures LookAt(n, [name]) == if name in n.children then LookAt(n.children[name], []) else Nothing
  {
    assert [name][0] == name && [name][1..] == [];
    if name in h[t].children && h[t].children[name].TreeChild? {
      assert Step(h, t, name).Some?;
      assert StoreLook(h, t, [name]) == StoreLook(h, h[t].children[name].tree, []);
    }
  }

  /** The child a name leads to, in the objects and in the value. */
  lemma ShowsChild(h: Store, t: FieldTree, n: Node, name: string)
    requires Shows(h, t, n)
    ensures h[t].names == n.names
    ensures name in h[t].children <==> name in n.children
    ensures name in n.children && h[t].children[name].LeafChild? ==>
            n.children[name] == LeafNode(h[t].children[name].leaf)
    ensures name in n.children && h[t].children[name].TreeChild? ==>
              n.children[name].Branch? && Shows(h, h[t].children[name].tree, n.children[name])
  {
    assert StoreLook(h, t, []) == LookAt(n, []);
    assert StoreLook(h, t, [name]) == LookAt(n, [name]);
    LooksOneStep(h, t, n, name);
    if name in n.children {
      if h[t].children[name].TreeChild? {
        assert Step(h, t, name).Some?;
        forall q ensures StoreLook(h, h[t].children[name].tree, q) == LookAt(n.children[name], q) {
          assert ([name] + q)[1..] == q;
          assert StoreLook(h, t, [name] + q) == LookAt(n, [name] + q);
        }
      }
    }
  }

  /** The fields made so far, followed by those of the remaining names. */
  function Continue(n: Node, names: seq<string>, done: seq<Field>): Result<seq<Field>>
    requires n.Branch? && WellFormed(n) && forall name | name in names :: name in n.children
  {
    match FieldsFromTree(n, names)
    case Err => Err
    case Ok(rest) => Ok(done + rest)
  }

  lemma ContinueFrom(n: Node, names: seq<string>)
    requires n.Branch? && WellFormed(n) && forall name | name in names :: name in n.children
    ensures Continue(n, names, []) == FieldsFromTree(n, names)
  {
    if FieldsFromTree(n, names).Ok? {
      assert [] + FieldsFromTree(n, names).value == FieldsFromTree(n, names).value;
    }
  }

  lemma ContinueStep(n: Node, names: seq<string>, done: seq<Field>)
    requires n.Branch? && WellFormed(n) && forall name | name in names :: name in n.children
    requires names != []
    ensures Continue(n, names, done) ==
            match TypeFromTree(n.children[names[0]])
            case Err => Err
            case Ok(t) => Continue(n, names[1..], done + [Field(names[0], t, true, map[])])
  {
    var t, rest := TypeFromTree(n.children[names[0]]), FieldsFromTree(n, names[1..]);
    if t.Ok? && rest.Ok? {
      var f := Field(names[0], t.value, true, map[]);
      assert done + ([f] + rest.value) == done + [f] + rest.value;
    }
  }

  /** The type of one child: a struct of the fields below it, or what its leaf decided. */
  method ReadType(t: FieldTree, name: string, ghost nodes: set<FieldTree>, ghost n: Node) returns (r: Result<DataType>)
    requires Shows(Snapshot(nodes), t, n) && name in t.children
    ensures name in n.children && WellFormed(n.children[name]) && r == TypeFromTree(n.children[name])
    decreases n, 0
  {
    ShowsChild(Snapshot(nodes), t, n, name);
    match t.children[name]
    case TreeChild(sub) =>
      var below := ReadFields(sub, nodes, n.children[name]);
      return if below.Err? then Err else Ok(Struct(below.value));
    case LeafChild(Deferred(_)) =>
      return Err;
    case LeafChild(Typed(decided)) =>
      return Ok(decided);
  }

  /** `fieldsFromTree`. */
  method ReadFields(t: FieldTree, ghost nodes: set<FieldTree>, ghost n: Node) returns (r: Result<seq<Field>>)
    requires Shows(Snapshot(nodes), t, n)
    ensures r == FieldsFromTree(n, n.names)
    decreases n, 1
  {
    ShowsChild(Snapshot(nodes), t, n, "");
    var fields := [];
    var i := 0;
    assert n.names[0..] == n.names;
    ContinueFrom(n, n.names);
    while i < |t.names|
      invariant 0 <= i <= |n.names|
      invariant FieldsFromTree(n, n.names) == Continue(n, n.names[i..], fields)
    {
      var name := t.names[i];
      ShowsChild(Snapshot(nodes), t, n, name);
      assert n.names[i..][0] == name && n.names[i..][1..] == n.names[i + 1..];
      ContinueStep(n, n.names[i..], fields);
      var typ := ReadType(t, name, nodes, n);
      if typ.Err? {
        return Err;
      }
      fields := fields + [Field(name, typ.value, true, map[])];
      i := i + 1;
    }
    assert n.names[i..] == [] && fields + [] == fields;
    return Ok(fields);
  }

  /** What `matchingFields` makes of one field. */
  ghost function Chosen(f: Field, n: Node): seq<Field>
    requires n.Branch? && Guided.BranchesAreStructs([f], n)
  {
    if f.name !in n.children then []
    else if !n.children[f.name].Branch? then [f]
    else
      assert f in [f];
      [f.(typ := Struct(Guided.MatchingFields(f.typ.children, n.children[f.name])))]
  }

  /** One more field of the list. */
  lemma MatchingStep(fields: seq<Field>, i: nat, n: Node)
    requires n.Branch? && i < |fields| && Guided.BranchesAreStructs(fields[i..], n)
    ensures Guided.BranchesAreStructs(fields[i + 1..], n) && Guided.BranchesAreStructs([fields[i]], n)
    ensures Guided.MatchingFields(fields[i..], n) ==
            Chosen(fields[i], n) + Guided.MatchingFields(fields[i + 1..], n)
  {
    assert fields[i..][0] == fields[i] && fields[i..][1..] == fields[i + 1..];
    assert fields[i] in fields[i..];
    forall f | f in fields[i + 1..] ensures f in fields[i..] {}
  }

  /** One turn of `matchingFields`. */
  method ReadOne(f: Field, t: FieldTree, ghost nodes: set<FieldTree>, ghost n: Node) returns (r: seq<Field>)
    requires Shows(Snapshot(nodes), t, n) && Guided.BranchesAreStructs([f], n)
    ensures r == Chosen(f, n)
    decreases n, 0
  {
    ShowsChild(Snapshot(nodes), t, n, f.name);
    assert f in [f];
    if f.name !in t.children {
      return [];
    }
    var child := t.children[f.name];
    if child.LeafChild? {
      return [f];
    }
    var below := ReadMatching(f.typ.children, child.tree, nodes, n.children[f.name]);
    return [f.(typ := Struct(below))];
  }

  /** `matchingFields`. */
  method ReadMatching(fields: seq<Field>, t: FieldTree, ghost nodes: set<FieldTree>, ghost n: Node)
    returns (r: seq<Field>)
    requires Shows(Snapshot(nodes), t, n) && Guided.BranchesAreStructs(fields, n)
    ensures r == Guided.MatchingFields(fields, n)
    decreases n, 1
  {
    r := [];
    var i := 0;
    assert fields[0..] == fields;
    while i < |fields|
      invariant 0 <= i <= |fields| && Guided.BranchesAreStructs(fields[i..], n)
      invariant Guided.MatchingFields(fields, n) == r + Guided.MatchingFields(fields[i..], n)
    {
      MatchingStep(fields, i, n);
      var one := ReadOne(fields[i], t, nodes, n);
      assert r + (one + Guided.MatchingFields(fields[i + 1..], n)) ==
        (r + one) + Guided.MatchingFields(fields[i + 1..], n);
      r := r + one;
      i := i + 1;
    }
  }

  // ---------------------------------------------------------------- order of the rows

  /** A field accepts a leaf: its type agrees with the value, and a struct has only null beside its records. */
  ghost predicate LeafAgrees(opts: Options, p: Path, x: Value, f: Option<Field>) {
    p != [] && f.Some? &&
    if f.value.typ.Struct? then IsNullish(x) else forall id :: Agrees(opts, x, p, id, f.value.typ)
  }

  /** Without a schema, every leaf of every row agrees with the inferred field at its path. */
  lemma EveryLeafAgrees(
    opts: Options, rows: seq<map<string, Value>>, os: seq<Obs>, row: map<string, Value>, p: Path, x: Value)
    requires Proper(os) && Enumerates(rows, os) && Outcome(opts, None, os).Ok?
    requires row in rows && IsLeaf(row, p, x)
    ensures LeafAgrees(opts, p, x, FieldAtPath(Outcome(opts, None, os).value, p))
  {
    assert Observed(os, p, x);
    var o :| o in os && o.path == p && o.value == x;
    InferMeetsSpecification(opts, os);
    PromiseAgrees(opts, os, o, FieldAtPath(Outcome(opts, None, os).value, p));
  }

  /**
   * Without a schema, every leaf of every row is held by the inferred field at its path, in terms that
   * infer nothing. Beside records there is only null; any other column has a leaf that fixes its type.
   */
  lemma EveryLeafHolds(
    opts: Options, rows: seq<map<string, Value>>, os: seq<Obs>, row: map<string, Value>, p: Path, x: Value)
    requires Proper(os) && Enumerates(rows, os) && Outcome(opts, None, os).Ok?
    requires row in rows && IsLeaf(row, p, x)
    ensures p != []
    ensures
      var f := FieldAtPath(Outcome(opts, None, os).value, p);
      && f.Some? && f.value == Field(p[|p| - 1], f.value.typ, true, map[])
      && if f.value.typ.Struct? then IsNullish(x)
         else Holds(opts, x, p, Canonical(f.value.typ)) && ExamplesIn(opts, rows, p, f.value.typ)
  {
    var f := FieldAtPath(Outcome(opts, None, os).value, p);
    EveryLeafAgrees(opts, rows, os, row, p, x);
    assert Observed(os, p, x);
    var o :| o in os && o.path == p && o.value == x;
    InferMeetsSpecification(opts, os);
    if !f.value.typ.Struct? {
      AgreesExactly(opts, x, p, 0, f.value.typ);
      var d :| d in os && d.path == p && TypeOf(opts, d) == Some(f.value.typ);
      assert FromRows(rows, d);
      InferTypeExactly(opts, d.value, p, d.id);
      assert OnlyHeldBy(opts, d.value, p, Canonical(f.value.typ));
    }
  }

  /** A value that belongs in columns of one type only. */
  ghost predicate OnlyHeldBy(opts: Options, x: Value, p: Path, t: DataType) {
    p != [] && forall u :: Holds(opts, x, p, Canonical(u)) <==> Canonical(u) == t
  }

  /** Some leaf at a path belongs nowhere but in a column of this type. */
  ghost predicate ExamplesIn(opts: Options, rows: seq<map<string, Value>>, p: Path, t: DataType) {
    exists row, x :: row in rows && IsLeaf(row, p, x) && OnlyHeldBy(opts, x, p, Canonical(t))
  }

  /** What inference promises about a path makes every observation there agree. */
  lemma PromiseAgrees(opts: Options, os: seq<Obs>, o: Obs, f: Option<Field>)
    requires Proper(os) && o in os && PathPromise(opts, os, o.path, f)
    ensures LeafAgrees(opts, o.path, o.value, f)
  {
    if !SeenBelow(os, o.path) { AgreesForEveryId(opts, o.value, o.path, o.id, f.value.typ); }
  }

  /** Whether a value agrees with a type does not depend on the dictionary id it is given. */
  lemma AgreesForEveryId(opts: Options, x: Value, p: Path, id: nat, t: DataType)
    requires p != [] && Agrees(opts, x, p, id, t)
    ensures forall other :: Agrees(opts, x, p, other, t)
  {
    forall other ensures Agrees(opts, x, p, other, t) {
      InferTypeUpToId(opts, x, p, id, other);
      TypesEqualReflexive(t);
      AgreesUpTo(opts, x, p, id, other, t, t);
    }
  }

  /** Whatever order the rows come in, the observations give the same evidence. */
  lemma SameRowsSameEvidence(
    rows1: seq<map<string, Value>>, rows2: seq<map<string, Value>>, os1: seq<Obs>, os2: seq<Obs>)
    requires forall row :: row in rows1 <==> row in rows2
    requires Enumerates(rows1, os1) && Enumerates(rows2, os2)
    ensures SameEvidence(os1, os2)
  {
    forall o | o in os1 ensures HasTwin(o, os2) {
      assert FromRows(rows1, o);
      var row :| row in rows1 && IsLeaf(row, o.path, o.value);
      assert row in rows2 && Observed(os2, o.path, o.value);
    }
    forall o | o in os2 ensures HasTwin(o, os1) {
      assert FromRows(rows2, o);
      var row :| row in rows2 && IsLeaf(row, o.path, o.value);
      assert row in rows1 && Observed(os1, o.path, o.value);
    }
  }

  /** Without a schema, permuting the rows changes neither success nor the type at any path. */
  lemma RowOrderIsInvisible(
    opts: Options, rows1: seq<map<string, Value>>, rows2: seq<map<string, Value>>, os1: seq<Obs>, os2: seq<Obs>)
    requires multiset(rows1) == multiset(rows2)
    requires Proper(os1) && Proper(os2) && Enumerates(rows1, os1) && Enumerates(rows2, os2)
    ensures Outcome(opts, None, os1).Ok? <==> Outcome(opts, None, os2).Ok?
    ensures Outcome(opts, None, os1).Ok? ==>
              forall p | p != [] ::
                SameField(FieldAtPath(Outcome(opts, None, os1).value, p),
                  FieldAtPath(Outcome(opts, None, os2).value, p))
  {
    forall row ensures row in rows1 <==> row in rows2 {
      assert row in rows1 <==> row in multiset(rows1);
      assert row in rows2 <==> row in multiset(rows2);
    }
    SameRowsSameEvidence(rows1, rows2, os1, os2);
    InferIsOrderFree(opts, os1, os2);
  }
}
