/**
 * With a schema, whether inference succeeds depends on the order of the rows. Says exactly which
 * orders succeed, and when all of them do.
 */
module RowOrder {
  import opened Values
  import opened ArrowTypes
  import opened SchemaInference
  import Guided = SchemaGuidedInference
  import opened SchemaInferrer

  // ---------------------------------------------------------------- leaves of a row

  /** The leaves of one row are prefix-free. */
  lemma {:induction false} LeavesArePrefixFree(row: Row, p: Path, x: Value, q: Path, y: Value)
    requires IsLeaf(row, p, x) && IsLeaf(row, q, y)
    ensures !(p < q)
    decreases |p|
  {
    if p[0] == q[0] && IsRecord(row[p[0]]) {
      assert p < q ==> p[1..] < q[1..];
      LeavesArePrefixFree(row[p[0]].fields, p[1..], x, q[1..], y);
    }
  }

  /** The leaves under some names of a row, in some order. */
  lemma {:induction false} LeavesExist(row: Row, names: set<string>) returns (entries: seq<(Path, Value)>)
    requires names <= row.Keys
    ensures forall path, v :: (path, v) in entries <==> IsLeaf(row, path, v) && path[0] in names
    decreases Record(row), |names|
  {
    if names == {} {
      return [];
    }
    var name :| name in names;
    entries := LeavesExist(row, names - {name});
    if IsRecord(row[name]) {
      assert row[name] == Record(row).fields[name] && row[name] == Record(row[name].fields);
      var below := LeavesExist(row[name].fields, row[name].fields.Keys);
      LeavesBelow(row, name, below);
      entries := entries + Prefixed(name, below);
    } else if !row[name].Undefined? {
      OwnLeaf(row, name);
      entries := entries + [([name], row[name])];
    }
  }

  /** Rows can be observed in any order they come in. */
  lemma {:induction false} ObservationsExist(rows: seq<Row>) returns (os: seq<Obs>)
    ensures InOrder(rows, os)
    decreases |rows|
  {
    if rows == [] {
      os := [];
    } else {
      var last := |rows| - 1;
      var before := ObservationsExist(rows[..last]);
      var made := RowObservationsExist(rows[last]);
      os := before + made;
      assert os[..|before|] == before && os[|before|..] == made;
    }
  }

  lemma RowObservationsExist(row: Row) returns (os: seq<Obs>)
    ensures LeavesOf(row, os)
  {
    var entries := LeavesExist(row, row.Keys);
    os := seq(|entries|, k requires 0 <= k < |entries| => Obs(entries[k].0, entries[k].1, 0));
    forall o | o in os ensures IsLeaf(row, o.path, o.value) {
      var k :| 0 <= k < |os| && os[k] == o;
      assert entries[k] == (o.path, o.value) && entries[k] in entries;
    }
    forall path, v | IsLeaf(row, path, v) ensures Observed(os, path, v) {
      assert (path, v) in entries;
      var k :| 0 <= k < |entries| && entries[k] == (path, v);
      assert os[k] in os;
    }
  }

  // ---------------------------------------------------------------- which observations belong to which row

  /** The stretch of observations that a row made. */
  ghost predicate Stretch(rows: seq<Row>, os: seq<Obs>, i: nat, a: nat, b: nat) {
    && i < |rows| && a <= b <= |os|
    && InOrder(rows[..i], os[..a]) && LeavesOf(rows[i], os[a..b])
  }

  lemma {:induction false} StretchOfRow(rows: seq<Row>, os: seq<Obs>, i: nat) returns (a: nat, b: nat)
    requires InOrder(rows, os) && i < |rows|
    ensures Stretch(rows, os, i, a, b)
    decreases |rows|
  {
    var last := |rows| - 1;
    var k :| 0 <= k <= |os| && InOrder(rows[..last], os[..k]) && LeavesOf(rows[last], os[k..]);
    if i == last {
      a, b := k, |os|;
      assert os[a..b] == os[k..];
    } else {
      a, b := StretchOfRow(rows[..last], os[..k], i);
      assert rows[..last][..i] == rows[..i] && os[..k][..a] == os[..a] && os[..k][a..b] == os[a..b];
    }
  }

  lemma {:induction false} StretchOfObservation(rows: seq<Row>, os: seq<Obs>, t: nat) returns (i: nat, a: nat, b: nat)
    requires InOrder(rows, os) && t < |os|
    ensures Stretch(rows, os, i, a, b) && a <= t < b
    decreases |rows|
  {
    var last := |rows| - 1;
    var k :| 0 <= k <= |os| && InOrder(rows[..last], os[..k]) && LeavesOf(rows[last], os[k..]);
    if k <= t {
      i, a, b := last, k, |os|;
      assert os[a..b] == os[k..];
    } else {
      i, a, b := StretchOfObservation(rows[..last], os[..k], t);
      assert rows[..last][..i] == rows[..i] && os[..k][..a] == os[..a] && os[..k][a..b] == os[a..b];
    }
  }

  // ---------------------------------------------------------------- one order

  /** Some row has a leaf below a path. */
  ghost predicate HasBelow(rows: seq<Row>, p: Path) {
    exists row, q, y :: row in rows && IsLeaf(row, q, y) && p < q
  }

  lemma BelowIsSeen(rows: seq<Row>, os: seq<Obs>, p: Path)
    requires Enumerates(rows, os)
    ensures HasBelow(rows, p) <==> SeenBelow(os, p)
  {
    if HasBelow(rows, p) {
      var row, q, y :| row in rows && IsLeaf(row, q, y) && p < q;
      assert Observed(os, q, y);
    }
    if SeenBelow(os, p) {
      var o :| o in os && p < o.path;
      assert FromRows(rows, o);
    }
  }

  /** A row with another object where rows have records comes after one of those. */
  ghost predicate RecordRowsComeFirst(rows: seq<Row>) {
    forall i, p, x {:trigger IsLeaf(rows[i], p, x)} |
      0 <= i < |rows| && IsLeaf(rows[i], p, x) && !IsNullish(x) && HasBelow(rows, p) :: HasBelow(rows[..i], p)
  }

  /** Every leaf of every row is accepted by the field at its path. */
  ghost predicate LeavesAccepted(schema: seq<Field>, rows: seq<Row>) {
    forall row, p, x {:trigger IsLeaf(row, p, x)} | row in rows && IsLeaf(row, p, x) ::
      Guided.Accepted(schema, Obs(p, x, 0))
  }

  /** The order of the observations is in order exactly when that of the rows is. */
  lemma OrderOfRows(rows: seq<Row>, os: seq<Obs>)
    requires InOrder(rows, os)
    ensures Guided.RecordsComeFirst(os) <==> RecordRowsComeFirst(rows)
  {
    InOrderEnumerates(rows, os);
    if Guided.RecordsComeFirst(os) {
      forall i, p, x | 0 <= i < |rows| && IsLeaf(rows[i], p, x) && !IsNullish(x) && HasBelow(rows, p)
        ensures HasBelow(rows[..i], p)
      {
        EarlierRow(rows, os, i, p, x);
      }
    }
    if RecordRowsComeFirst(rows) {
      forall t | 0 <= t < |os| && !IsNullish(os[t].value) && SeenBelow(os, os[t].path)
        ensures SeenBelow(os[..t], os[t].path)
      {
        EarlierObservation(rows, os, t);
      }
    }
  }

  lemma EarlierRow(rows: seq<Row>, os: seq<Obs>, i: nat, p: Path, x: Value)
    requires InOrder(rows, os) && Guided.RecordsComeFirst(os)
    requires i < |rows| && IsLeaf(rows[i], p, x) && !IsNullish(x) && HasBelow(rows, p)
    ensures HasBelow(rows[..i], p)
  {
    InOrderEnumerates(rows, os);
    BelowIsSeen(rows, os, p);
    var a, b, t := LeafPosition(rows, os, i, p, x);
    SeenBeforeRow(rows, os, i, p, x, a, b, t);
    BelowBeforeRow(rows, os, i, p, a, b);
  }

  /** Where a leaf of a row was observed. */
  lemma LeafPosition(rows: seq<Row>, os: seq<Obs>, i: nat, p: Path, x: Value) returns (a: nat, b: nat, t: nat)
    requires InOrder(rows, os) && i < |rows| && IsLeaf(rows[i], p, x)
    ensures Stretch(rows, os, i, a, b) && a <= t < b && os[t].path == p && os[t].value == x
  {
    a, b := StretchOfRow(rows, os, i);
    assert Observed(os[a..b], p, x);
    var o :| o in os[a..b] && o.path == p && o.value == x;
    t :| a <= t < b && os[t] == o;
  }

  lemma BelowBeforeRow(rows: seq<Row>, os: seq<Obs>, i: nat, p: Path, a: nat, b: nat)
    requires Stretch(rows, os, i, a, b)
    ensures HasBelow(rows[..i], p) <==> SeenBelow(os[..a], p)
  {
    InOrderEnumerates(rows[..i], os[..a]);
    BelowIsSeen(rows[..i], os[..a], p);
  }

  /** What was seen below a leaf of a row before that leaf was seen before the row. */
  lemma SeenBeforeRow(rows: seq<Row>, os: seq<Obs>, i: nat, p: Path, x: Value, a: nat, b: nat, t: nat)
    requires Stretch(rows, os, i, a, b) && IsLeaf(rows[i], p, x) && a <= t < b && SeenBelow(os[..t], p)
    ensures SeenBelow(os[..a], p)
  {
    var e :| e in os[..t] && p < e.path;
    var u :| 0 <= u < t && os[u] == e;
    if a <= u {
      assert e == os[a..b][u - a];
      LeavesArePrefixFree(rows[i], p, x, e.path, e.value);
    }
    assert os[..a][u] == e;
  }

  lemma EarlierObservation(rows: seq<Row>, os: seq<Obs>, t: nat)
    requires InOrder(rows, os) && RecordRowsComeFirst(rows)
    requires t < |os| && !IsNullish(os[t].value) && SeenBelow(os, os[t].path)
    ensures SeenBelow(os[..t], os[t].path)
  {
    InOrderEnumerates(rows, os);
    BelowIsSeen(rows, os, os[t].path);
    var i, a, b := StretchOfObservation(rows, os, t);
    assert os[a..b][t - a] == os[t];
    assert IsLeaf(rows[i], os[t].path, os[t].value);
    BelowBeforeRow(rows, os, i, os[t].path, a, b);
    var e :| e in os[..a] && os[t].path < e.path;
    var u :| 0 <= u < a && os[u] == e;
    assert os[..t][u] == e;
  }

  /** Whether inference succeeds for rows in a given order. */
  lemma SucceedsInOrder(schema: seq<Field>, rows: seq<Row>, os: seq<Obs>)
    requires DistinctNames(schema) && InOrder(rows, os)
    ensures Proper(os)
    ensures Guided.Infer(schema, os).Ok? <==> LeavesAccepted(schema, rows) && RecordRowsComeFirst(rows)
  {
    InOrderEnumerates(rows, os);
    OrderOfRows(rows, os);
    Guided.InferMeetsSpecification(schema, os);
    if LeavesAccepted(schema, rows) {
      forall o | o in os ensures Guided.Accepted(schema, o) {
        assert FromRows(rows, o);
        assert Guided.Accepted(schema, Obs(o.path, o.value, 0));
      }
    }
    if forall o | o in os :: Guided.Accepted(schema, o) {
      forall row, p, x | row in rows && IsLeaf(row, p, x) ensures Guided.Accepted(schema, Obs(p, x, 0)) {
        assert Observed(os, p, x);
      }
    }
  }

  // ---------------------------------------------------------------- every order

  /** No struct holds both a record and another object. */
  ghost predicate NoObjectOverRecord(rows: seq<Row>) {
    forall row, p, x {:trigger IsLeaf(row, p, x)} | row in rows && IsLeaf(row, p, x) && HasBelow(rows, p) ::
      IsNullish(x)
  }

  /** Rows in some order, whatever the order of the leaves in each, are accepted. */
  ghost predicate AlwaysSucceeds(schema: seq<Field>, rows: seq<Row>)
    requires DistinctNames(schema)
  {
    forall os | InOrder(rows, os) :: Proper(os) && Guided.Infer(schema, os).Ok?
  }

  lemma AlwaysSucceedsExactly(schema: seq<Field>, rows: seq<Row>)
    requires DistinctNames(schema)
    ensures AlwaysSucceeds(schema, rows) <==> LeavesAccepted(schema, rows) && RecordRowsComeFirst(rows)
  {
    var os := ObservationsExist(rows);
    SucceedsInOrder(schema, rows, os);
    forall other | InOrder(rows, other)
      ensures Proper(other)
      ensures Guided.Infer(schema, other).Ok? <==> LeavesAccepted(schema, rows) && RecordRowsComeFirst(rows)
    {
      SucceedsInOrder(schema, rows, other);
    }
  }

  /**
   * Inference with a schema succeeds for every order of the rows if and only if every leaf is
   * accepted and no struct holds both a record and another object.
   */
  lemma SucceedsInEveryOrder(schema: seq<Field>, rows: seq<Row>)
    requires DistinctNames(schema)
    ensures (forall rows' | multiset(rows') == multiset(rows) :: AlwaysSucceeds(schema, rows')) <==>
            LeavesAccepted(schema, rows) && NoObjectOverRecord(rows)
  {
    if LeavesAccepted(schema, rows) && NoObjectOverRecord(rows) {
      forall rows' | multiset(rows') == multiset(rows) ensures AlwaysSucceeds(schema, rows') {
        SameRows(rows, rows');
        AlwaysSucceedsExactly(schema, rows');
      }
    }
    if forall rows' | multiset(rows') == multiset(rows) :: AlwaysSucceeds(schema, rows') {
      AlwaysSucceedsExactly(schema, rows);
      forall row, p, x | row in rows && IsLeaf(row, p, x) && HasBelow(rows, p) ensures IsNullish(x) {
        var k :| 0 <= k < |rows| && rows[k] == row;
        var rows' := RowFirst(rows, k);
        AlwaysSucceedsExactly(schema, rows');
        SameRows(rows, rows');
        assert IsLeaf(rows'[0], p, x) && rows'[..0] == [];
      }
    }
  }

  /** The same rows with one of them first. */
  lemma RowFirst(rows: seq<Row>, k: nat) returns (rows': seq<Row>)
    requires k < |rows|
    ensures multiset(rows') == multiset(rows) && rows' != [] && rows'[0] == rows[k]
  {
    rows' := [rows[k]] + rows[..k] + rows[k + 1..];
    assert rows == rows[..k] + [rows[k]] + rows[k + 1..];
  }

  lemma SameRows(rows: seq<Row>, rows': seq<Row>)
    requires multiset(rows) == multiset(rows')
    ensures forall row :: row in rows <==> row in rows'
    ensures forall p :: HasBelow(rows, p) <==> HasBelow(rows', p)
  {
    forall row ensures row in rows <==> row in rows' {
      assert row in rows <==> row in multiset(rows);
      assert row in rows' <==> row in multiset(rows');
    }
  }

  /** With a row that has an object where another row has a record put first, inference fails. */
  lemma ObjectFirstFails(schema: seq<Field>, rows: seq<Row>, k: nat, p: Path, x: Value) returns (rows': seq<Row>)
    requires DistinctNames(schema) && k < |rows|
    requires IsLeaf(rows[k], p, x) && !IsNullish(x) && HasBelow(rows, p)
    ensures multiset(rows') == multiset(rows)
    ensures forall os | InOrder(rows', os) :: Proper(os) && Guided.Infer(schema, os).Err?
  {
    rows' := RowFirst(rows, k);
    SameRows(rows, rows');
    assert !RecordRowsComeFirst(rows') by {
      assert IsLeaf(rows'[0], p, x) && rows'[..0] == [];
    }
    forall os | InOrder(rows', os) ensures Proper(os) && Guided.Infer(schema, os).Err? {
      SucceedsInOrder(schema, rows', os);
    }
  }

  // ---------------------------------------------------------------- two rows

  const RECORD_ROW: Row := map["s" := Record(map["x" := Number(SafeInteger(1))])]
  const DATE_ROW: Row := map["s" := Builtin(0)]

  /** A struct given a date in one row and a record in another: the record has to come first. */
  lemma OrderMattersWithSchema()
    ensures
      var schema := [Field("s", Struct([Field("x", FLOAT64, true, map[])]), true, map[])];
      && DistinctNames(schema)
      && AlwaysSucceeds(schema, [RECORD_ROW, DATE_ROW])
      && forall os | InOrder([DATE_ROW, RECORD_ROW], os) :: Proper(os) && Guided.Infer(schema, os).Err?
  {
    var inner := [Field("x", FLOAT64, true, map[])];
    var schema := [Field("s", Struct(inner), true, map[])];
    assert DistinctNames(inner) && DistinctNames(schema);
    TwoRowLeaves();
    TwoRowsAccepted();
    TwoRowsInOrder();
    AlwaysSucceedsExactly(schema, [RECORD_ROW, DATE_ROW]);
    forall os | InOrder([DATE_ROW, RECORD_ROW], os) ensures Proper(os) && Guided.Infer(schema, os).Err? {
      SucceedsInOrder(schema, [DATE_ROW, RECORD_ROW], os);
    }
  }

  lemma TwoRowLeaves()
    ensures forall p, x :: IsLeaf(RECORD_ROW, p, x) <==> p == ["s", "x"] && x == Number(SafeInteger(1))
    ensures forall p, x :: IsLeaf(DATE_ROW, p, x) <==> p == ["s"] && x == Builtin(0)
  {
    var inner := map["x" := Number(SafeInteger(1))];
    assert "x" in inner && IsRecord(Record(inner));
    forall p, x ensures IsLeaf(RECORD_ROW, p, x) <==> p == ["s", "x"] && x == Number(SafeInteger(1)) {
      if |p| == 2 { assert p == [p[0], p[1]] && p[1..] == [p[1]]; }
      if p == ["s", "x"] { assert p[1..] == ["x"] && IsLeaf(inner, ["x"], Number(SafeInteger(1))); }
    }
    forall p, x ensures IsLeaf(DATE_ROW, p, x) <==> p == ["s"] && x == Builtin(0) {
      if |p| == 1 { assert p == [p[0]]; }
    }
  }

  lemma TwoRowsAccepted()
    ensures LeavesAccepted([Field("s", Struct([Field("x", FLOAT64, true, map[])]), true, map[])],
            [RECORD_ROW, DATE_ROW])
  {
    TwoRowLeaves();
    var inner := [Field("x", FLOAT64, true, map[])];
    var schema := [Field("s", Struct(inner), true, map[])];
    assert Find(inner, "x") == Some(inner[0]) && Find(schema, "s") == Some(schema[0]);
    assert ["s", "x"][1..] == ["x"];
    assert FieldAtPath(schema, ["s", "x"]) == FieldAtPath(inner, ["x"]) == Some(inner[0]);
  }

  lemma TwoRowsInOrder()
    ensures RecordRowsComeFirst([RECORD_ROW, DATE_ROW]) && !RecordRowsComeFirst([DATE_ROW, RECORD_ROW])
  {
    TwoRowLeaves();
    var good, bad := [RECORD_ROW, DATE_ROW], [DATE_ROW, RECORD_ROW];
    assert ["s"] < ["s", "x"];
    assert good[..1] == [RECORD_ROW] && RECORD_ROW in good[..1] &&
      IsLeaf(RECORD_ROW, ["s", "x"], Number(SafeInteger(1)));
    assert HasBelow(good[..1], ["s"]) && !HasBelow(good, ["s", "x"]);
    assert RECORD_ROW in bad && HasBelow(bad, ["s"]) && bad[..0] == [] && IsLeaf(bad[0], ["s"], Builtin(0));
  }
}
