/**
 * `readBlobBytes` and `withBinaryColumns`: the descriptors of blob columns are replaced, batch by
 * batch, with bytes fetched for the row ids of the whole table.
 */
module BlobBytesTable {
  import opened Values

  datatype Cell = RowId(id: nat) | Blob(bytes: Option<Bytes>) | Other(token: nat)

  /** A record batch: one list of cells for each field. */
  datatype Batch = Batch(numRows: nat, columns: seq<seq<Cell>>)

  datatype Table = Table(names: seq<string>, batches: seq<Batch>)

  predicate BatchFits(b: Batch, width: nat) {
    |b.columns| == width && forall c | 0 <= c < width :: |b.columns[c]| == b.numRows
  }

  /** Every batch has a column for every field, of its own length. */
  ghost predicate WellFormed(t: Table) {
    forall i | 0 <= i < |t.batches| :: BatchFits(t.batches[i], |t.names|)
  }

  /** The number of rows of the first `k` batches. */
  function RowsTo(batches: seq<Batch>, k: nat): nat
    requires k <= |batches|
  {
    if k == 0 then 0 else RowsTo(batches, k - 1) + batches[k - 1].numRows
  }

  function NumRows(t: Table): nat {
    RowsTo(t.batches, |t.batches|)
  }

  /** A column of the first `k` batches in one piece. */
  function ColumnTo(batches: seq<Batch>, k: nat, c: nat): (cells: seq<Cell>)
    requires k <= |batches| && forall i | 0 <= i < k :: c < |batches[i].columns|
  {
    if k == 0 then [] else ColumnTo(batches, k - 1, c) + batches[k - 1].columns[c]
  }

  function Column(t: Table, c: nat): seq<Cell>
    requires WellFormed(t) && c < |t.names|
  {
    ColumnTo(t.batches, |t.batches|, c)
  }

  lemma {:induction false} ColumnLength(t: Table, c: nat, k: nat)
    requires WellFormed(t) && c < |t.names| && k <= |t.batches|
    ensures |ColumnTo(t.batches, k, c)| == RowsTo(t.batches, k)
    decreases k
  {
    if k > 0 {
      ColumnLength(t, c, k - 1);
      assert BatchFits(t.batches[k - 1], |t.names|);
    }
  }

  /** `values.slice(start, end)`. */
  function Slice(values: seq<Cell>, start: nat, end: nat): seq<Cell> {
    var hi := if end <= |values| then end else |values|;
    if start <= hi then values[start..hi] else []
  }

  // ---------------------------------------------------------------- replacing columns

  function ReplaceColumns(b: Batch, replacements: map<nat, seq<Cell>>, offset: nat): (r: Batch)
    ensures r.numRows == b.numRows && |r.columns| == |b.columns|
    ensures forall c {:trigger r.columns[c]} | 0 <= c < |b.columns| ::
              r.columns[c] ==
              if c in replacements then Slice(replacements[c], offset, offset + b.numRows) else b.columns[c]
  {
    Batch(b.numRows, seq(|b.columns|, c requires 0 <= c < |b.columns| =>
      if c in replacements then Slice(replacements[c], offset, offset + b.numRows) else b.columns[c]))
  }

  /** `withBinaryColumns`, with its running offset. */
  method WithBinaryColumns(t: Table, replacements: map<nat, seq<Cell>>) returns (out: Table)
    requires WellFormed(t)
    requires forall c | c in replacements :: c < |t.names| && |replacements[c]| == NumRows(t)
    ensures WellFormed(out) && out.names == t.names && |out.batches| == |t.batches|
    ensures forall i | 0 <= i < |t.batches| :: out.batches[i].numRows == t.batches[i].numRows
    ensures forall c | 0 <= c < |t.names| ::
            Column(out, c) == if c in replacements then replacements[c] else Column(t, c)
  {
    if replacements == map[] {
      return t;
    }
    var offset, batches := 0, [];
    var i := 0;
    while i < |t.batches|
      invariant 0 <= i <= |t.batches| && |batches| == i && offset == RowsTo(t.batches, i)
      invariant forall k {:trigger batches[k]} | 0 <= k < i ::
                  batches[k] == ReplaceColumns(t.batches[k], replacements, RowsTo(t.batches, k))
    {
      batches := batches + [ReplaceColumns(t.batches[i], replacements, offset)];
      offset := offset + t.batches[i].numRows;
      i := i + 1;
    }
    out := Table(t.names, batches);
    ReplacedFits(t, replacements, out);
    forall c | 0 <= c < |t.names|
      ensures Column(out, c) == if c in replacements then replacements[c] else Column(t, c)
    {
      ReplacedColumn(t, replacements, out, c);
    }
  }

  /** A table whose batches are the replaced ones. */
  ghost predicate IsReplaced(t: Table, replacements: map<nat, seq<Cell>>, out: Table) {
    && |out.batches| == |t.batches| && out.names == t.names
    && forall k {:trigger out.batches[k]} | 0 <= k < |t.batches| ::
         out.batches[k] == ReplaceColumns(t.batches[k], replacements, RowsTo(t.batches, k))
  }

  lemma {:induction false} RowsMonotone(batches: seq<Batch>, i: nat, j: nat)
    requires i <= j <= |batches|
    ensures RowsTo(batches, i) <= RowsTo(batches, j)
    decreases j - i
  {
    if i < j { RowsMonotone(batches, i, j - 1); }
  }

  lemma ReplacedFits(t: Table, replacements: map<nat, seq<Cell>>, out: Table)
    requires WellFormed(t) && IsReplaced(t, replacements, out)
    requires forall c | c in replacements :: c < |t.names| && |replacements[c]| == NumRows(t)
    ensures WellFormed(out)
  {
    forall i | 0 <= i < |out.batches| ensures BatchFits(out.batches[i], |out.names|) {
      assert BatchFits(t.batches[i], |t.names|);
      RowsMonotone(t.batches, i + 1, |t.batches|);
      assert RowsTo(t.batches, i + 1) == RowsTo(t.batches, i) + t.batches[i].numRows;
    }
  }

  /** The slices taken by the running offset make up the replacement. */
  lemma {:induction false} SlicesMakeUp(t: Table, out: Table, values: seq<Cell>, c: nat, k: nat)
    requires WellFormed(out) && c < |out.names| && |out.batches| == |t.batches| && k <= |t.batches|
    requires |values| == NumRows(t)
    requires forall i {:trigger out.batches[i]} | 0 <= i < |t.batches| ::
               out.batches[i].columns[c] ==
                 Slice(values, RowsTo(t.batches, i), RowsTo(t.batches, i) + t.batches[i].numRows)
    ensures RowsTo(t.batches, k) <= |values|
    ensures ColumnTo(out.batches, k, c) == values[..RowsTo(t.batches, k)]
    decreases k
  {
    RowsMonotone(t.batches, k, |t.batches|);
    if k > 0 {
      SlicesMakeUp(t, out, values, c, k - 1);
      var lo, hi := RowsTo(t.batches, k - 1), RowsTo(t.batches, k);
      assert out.batches[k - 1].columns[c] == values[lo..hi];
      assert values[..lo] + values[lo..hi] == values[..hi];
    }
  }

  lemma {:induction false} SameColumn(t: Table, out: Table, c: nat, k: nat)
    requires WellFormed(t) && WellFormed(out) && c < |t.names| == |out.names| && |out.batches| == |t.batches| &&
             k <= |t.batches|
    requires forall i {:trigger out.batches[i]} | 0 <= i < |t.batches| ::
             out.batches[i].columns[c] == t.batches[i].columns[c]
    ensures ColumnTo(out.batches, k, c) == ColumnTo(t.batches, k, c)
    decreases k
  {
    if k > 0 { SameColumn(t, out, c, k - 1); }
  }

  lemma ReplacedColumn(t: Table, replacements: map<nat, seq<Cell>>, out: Table, c: nat)
    requires WellFormed(t) && WellFormed(out) && IsReplaced(t, replacements, out) && c < |t.names|
    requires forall c | c in replacements :: c < |t.names| && |replacements[c]| == NumRows(t)
    ensures Column(out, c) == if c in replacements then replacements[c] else Column(t, c)
  {
    forall i | 0 <= i < |t.batches| ensures BatchFits(t.batches[i], |t.names|) {}
    if c in replacements {
      SlicesMakeUp(t, out, replacements[c], c, |t.batches|);
      assert replacements[c][..NumRows(t)] == replacements[c];
    } else {
      SameColumn(t, out, c, |t.batches|);
    }
  }

  // ---------------------------------------------------------------- fetching

  const ROW_ID := "_rowid"

  /** `findIndex`; `None` if there is no such field. */
  function IndexOf(names: seq<string>, name: string): (r: Option<nat>)
    ensures r.Some? ==> r.value < |names| && names[r.value] == name
    ensures r.None? ==> name !in names
  {
    if names == [] then None
    else if names[0] == name then Some(0)
    else match IndexOf(names[1..], name)
      case None => None
      case Some(i) => Some(i + 1)
  }

  lemma {:induction false} IndexOfDistinct(names: seq<string>, i: nat)
    requires i < |names| && forall a, b | 0 <= a < b < |names| :: names[a] != names[b]
    ensures IndexOf(names, names[i]) == Some(i)
    decreases |names|
  {
    if i > 0 { IndexOfDistinct(names[1..], i - 1); }
  }

  /** The bytes of a source column for each row id, in order. */
  function Fetched(fetch: (string, nat) -> Option<Bytes>, source: string, rowIds: seq<Cell>): (cells: seq<Cell>)
    requires forall k | 0 <= k < |rowIds| :: rowIds[k].RowId?
    ensures |cells| == |rowIds| && forall k | 0 <= k < |rowIds| :: cells[k] == Blob(fetch(source, rowIds[k].id))
  {
    seq(|rowIds|, k requires 0 <= k < |rowIds| => Blob(fetch(source, rowIds[k].id)))
  }

  /** The table without its row ids. */
  function DropColumn(t: Table, d: nat): (out: Table)
    requires WellFormed(t) && d < |t.names|
    ensures WellFormed(out) && |out.names| == |t.names| - 1
  {
    Table(t.names[..d] + t.names[d + 1..],
          seq(|t.batches|, i requires 0 <= i < |t.batches| =>
            assert BatchFits(t.batches[i], |t.names|);
            Batch(t.batches[i].numRows, t.batches[i].columns[..d] + t.batches[i].columns[d + 1..])))
  }

  lemma {:induction false} DropColumnKeeps(t: Table, d: nat, c: nat, k: nat)
    requires WellFormed(t) && d < |t.names| && c < |t.names| && c != d && k <= |t.batches|
    ensures ColumnTo(DropColumn(t, d).batches, k, if c < d then c else c - 1) == ColumnTo(t.batches, k, c)
    decreases k
  {
    if k > 0 {
      DropColumnKeeps(t, d, c, k - 1);
      assert BatchFits(t.batches[k - 1], |t.names|);
    }
  }

  /** The row ids of a table: its `_rowid` column, one id for each row. */
  function RowIds(t: Table): seq<Cell>
    requires WellFormed(t)
  {
    var index := IndexOf(t.names, ROW_ID);
    if index.None? then [] else Column(t, index.value)
  }

  /** A column of that name holds row ids. */
  ghost predicate RowIdsTyped(t: Table)
    requires WellFormed(t)
  {
    forall d | 0 <= d < |t.names| && t.names[d] == "_rowid" ::
      forall k | 0 <= k < |Column(t, d)| :: Column(t, d)[k].RowId?
  }

  /** One row id for each row, from the column of that name. */
  lemma RowIdsFound(t: Table)
    requires WellFormed(t) && RowIdsTyped(t) && (NumRows(t) > 0 ==> "_rowid" in t.names)
    requires forall a, b | 0 <= a < b < |t.names| :: t.names[a] != t.names[b]
    ensures |RowIds(t)| == NumRows(t) && forall k | 0 <= k < |RowIds(t)| :: RowIds(t)[k].RowId?
    ensures forall d | 0 <= d < |t.names| && t.names[d] == "_rowid" :: RowIds(t) == Column(t, d)
  {
    var index := IndexOf(t.names, ROW_ID);
    if index.Some? { ColumnLength(t, index.value, |t.batches|); }
    forall d | 0 <= d < |t.names| && t.names[d] == "_rowid" ensures index == Some(d) { IndexOfDistinct(t.names, d); }
  }

  /** What a column of the result holds: fetched bytes if its name is an output of `sources`. */
  ghost predicate ColumnPromise(
    t: Table, fetch: (string, nat) -> Option<Bytes>, sources: map<string, string>, c: nat, cells: seq<Cell>)
    requires WellFormed(t) && RowIdsTyped(t) && c < |t.names|
  {
    |cells| == NumRows(t) &&
    if t.names[c] in sources then
      forall d | 0 <= d < |t.names| && t.names[d] == "_rowid" ::
        HoldsBytes(fetch, sources[t.names[c]], Column(t, d), cells)
    else cells == Column(t, c)
  }

  /** Each cell holds the bytes of the row id in its place. */
  ghost predicate HoldsBytes(
    fetch: (string, nat) -> Option<Bytes>, source: string, rowIds: seq<Cell>, cells: seq<Cell>)
  {
    |cells| == |rowIds| &&
    forall k | 0 <= k < |cells| :: rowIds[k].RowId? && cells[k] == Blob(fetch(source, rowIds[k].id))
  }

  /**
   * `readBlobBytes`: row `k` of each blob column holds the bytes fetched for the `k`-th row id,
   * however the rows are split into batches; other columns and the batch sizes are as before. Rows
   * without row ids are refused. `full` is the result before the row ids are dropped.
   */
  method ReadBlobBytes(t: Table, fetch: (string, nat) -> Option<Bytes>, sources: map<string, string>, dropRowId: bool)
    returns (r: Result<Table>, ghost full: Table)
    requires WellFormed(t) && RowIdsTyped(t)
    requires forall a, b | 0 <= a < b < |t.names| :: t.names[a] != t.names[b]
    ensures r.Err? <==> NumRows(t) > 0 && "_rowid" !in t.names
    ensures r.Ok? ==>
              && WellFormed(full) && full.names == t.names && |full.batches| == |t.batches|
              && (forall i | 0 <= i < |t.batches| :: full.batches[i].numRows == t.batches[i].numRows)
              && (forall c | 0 <= c < |t.names| :: ColumnPromise(t, fetch, sources, c, Column(full, c)))
    ensures r.Ok? ==>
              r.value ==
              if dropRowId && IndexOf(t.names, ROW_ID).Some? then DropColumn(full, IndexOf(t.names, ROW_ID).value)
              else full
  {
    var rowIdColumn := IndexOf(t.names, ROW_ID);
    if NumRows(t) > 0 && rowIdColumn.None? {
      return Err, t;
    }
    var rowIds := RowIds(t);
    RowIdsFound(t);
    var replacements := FetchAll(t, fetch, sources, rowIds);
    var out := WithBinaryColumns(t, replacements);
    full := out;
    forall c | 0 <= c < |t.names| ensures ColumnPromise(t, fetch, sources, c, Column(full, c)) {
      ColumnLength(t, c, |t.batches|);
    }
    if !dropRowId || rowIdColumn.None? {
      return Ok(out), full;
    }
    return Ok(DropColumn(out, rowIdColumn.value)), full;
  }

  /** The loop over the sources. */
  method FetchAll(t: Table, fetch: (string, nat) -> Option<Bytes>, sources: map<string, string>, rowIds: seq<Cell>)
    returns (replacements: map<nat, seq<Cell>>)
    requires forall a, b | 0 <= a < b < |t.names| :: t.names[a] != t.names[b]
    requires forall k | 0 <= k < |rowIds| :: rowIds[k].RowId?
    ensures forall c | c in replacements :: c < |t.names|
    ensures forall c | 0 <= c < |t.names| :: c in replacements <==> t.names[c] in sources
    ensures forall c | c in replacements :: replacements[c] == Fetched(fetch, sources[t.names[c]], rowIds)
  {
    replacements := map[];
    var left := sources.Keys;
    while left != {}
      invariant left <= sources.Keys
      invariant forall c | c in replacements :: c < |t.names|
      invariant forall c | 0 <= c < |t.names| :: c in replacements <==> t.names[c] in sources && t.names[c] !in left
      invariant forall c | c in replacements :: replacements[c] == Fetched(fetch, sources[t.names[c]], rowIds)
      decreases left
    {
      var output :| output in left;
      var index := IndexOf(t.names, output);
      if index.Some? {
        replacements := replacements[index.value := Fetched(fetch, sources[output], rowIds)];
      }
      forall c | 0 <= c < |t.names| && t.names[c] == output ensures index == Some(c) { IndexOfDistinct(t.names, c); }
      left := left - {output};
    }
  }

  /** Dropping the row ids leaves every other column where it is. */
  lemma DroppedRowIds(t: Table, c: nat)
    requires WellFormed(t) && IndexOf(t.names, ROW_ID).Some? && c < |t.names| && c != IndexOf(t.names, ROW_ID).value
    ensures
      var d := IndexOf(t.names, ROW_ID).value;
      var c' := if c < d then c else c - 1;
      && c' < |DropColumn(t, d).names| && DropColumn(t, d).names[c'] == t.names[c]
      && Column(DropColumn(t, d), c') == Column(t, c)
  {
    DropColumnKeeps(t, IndexOf(t.names, ROW_ID).value, c, |t.batches|);
  }
}
