/** Picking columns by name: the projection of a batch, and what it makes of the rows. */
module Projections {
  import opened Wrappers
  import opened Catalog
  import opened Expressions
  import opened LogicalPlans
  import opened TableWriter
  import opened Scans

  /** `index_of` and `column_by_name`: the first column of that name */
  function FirstOf(fields: seq<Name>, name: Name): (i: Option<nat>)
    ensures i.Some? ==> i.value < |fields| && fields[i.value] == name && name !in fields[..i.value]
    ensures i.None? <==> name !in fields
  {
    if fields == [] then None
    else if fields[0] == name then Some(0)
    else match FirstOf(fields[1..], name)
      case None => None
      case Some(i) => Some(i + 1)
  }

  /** No column before it has that name. */
  lemma {:induction false} FirstIsFirst(fields: seq<Name>, name: Name)
    requires FirstOf(fields, name).Some?
    ensures name !in fields[..FirstOf(fields, name).value]
  {
    if fields[0] != name {
      FirstIsFirst(fields[1..], name);
      var i := FirstOf(fields[1..], name).value;
      assert fields[..i + 1] == [fields[0]] + fields[1..][..i];
    }
  }

  predicate Among(names: seq<Name>, fields: seq<Name>) {
    forall k :: 0 <= k < |names| ==> names[k] in fields
  }

  /** The columns that a list of names picks, if there is one for every name */
  function PicksOf(fields: seq<Name>, names: seq<Name>): (picks: Option<seq<nat>>)
    ensures picks.Some? <==> Among(names, fields)
    ensures picks.Some? ==> |picks.value| == |names|
    ensures picks.Some? ==> forall k :: 0 <= k < |names| ==> FirstOf(fields, names[k]) == Some(picks.value[k])
  {
    if names == [] then Some([])
    else
      var last := |names| - 1;
      var before, pick := PicksOf(fields, names[..last]), FirstOf(fields, names[last]);
      if before.None? || pick.None? then None else Some(before.value + [pick.value])
  }

  function FieldNames(columns: seq<ColumnSchema>): (names: seq<Name>)
    ensures |names| == |columns| && forall c :: 0 <= c < |columns| ==> names[c] == columns[c].name
  {
    seq(|columns|, c requires 0 <= c < |columns| => columns[c].name)
  }

  /** The columns of a batch by name, in the order of the SELECT list; a name without a
      column is an error. */
  method ProjectBatch(fields: seq<Name>, names: seq<Name>, batch: Batch) returns (r: Option<Batch>)
    requires |batch| == |fields|
    ensures r.Some? <==> PicksOf(fields, names).Some?
    ensures r.Some? ==>
              |r.value| == |names|
              && forall k :: 0 <= k < |names| ==> r.value[k] == batch[PicksOf(fields, names).value[k]]
  {
    var out: Batch := [];
    for k := 0 to |names|
      invariant |out| == k && forall l :: 0 <= l < k ==> names[l] in fields
      invariant forall l :: 0 <= l < k ==> FirstOf(fields, names[l]).Some? && out[l] == batch[FirstOf(fields, names[l]).value]
    {
      var index := FirstOf(fields, names[k]);
      if index.None? {
        return None;
      }
      out := out + [batch[index.value]];
    }
    r := Some(out);
  }

  /** The values in row `i` of a projected batch */
  ghost function ProjectedValues(columns: seq<ColumnSchema>, picks: seq<nat>, projected: Batch, i: nat): (values: seq<Option<Value>>)
    requires |projected| == |picks|
    requires forall k :: 0 <= k < |picks| ==> picks[k] < |columns| && i < projected[k].Length()
    ensures |values| == |picks|
    ensures forall k :: 0 <= k < |picks| ==> values[k] == Some(ValueAt(Chunk(columns[picks[k]].dataType, projected[k]), i))
  {
    seq(|picks|, k requires 0 <= k < |picks| => Some(ValueAt(Chunk(columns[picks[k]].dataType, projected[k]), i)))
  }

  /** The picked columns are those of the names. */
  lemma PickedCells(columns: seq<ColumnSchema>, names: seq<Name>, picks: seq<nat>)
    requires PicksOf(FieldNames(columns), names) == Some(picks)
    ensures |picks| == |names| && forall k :: 0 <= k < |names| ==> picks[k] < |columns| && columns[picks[k]].name == names[k]
  {
    forall k | 0 <= k < |names| ensures picks[k] < |columns| && columns[picks[k]].name == names[k] {
      PickedCell(columns, names, picks, k);
    }
  }

  /** What the plans call projecting: each row of the projected batch is the row of the
      batch, looked up by name. */
  lemma ProjectionReadsRows(columns: seq<ColumnSchema>, names: seq<Name>, picks: seq<nat>, batch: Batch, rows: nat, projected: Batch, i: nat)
    requires DistinctNames(columns) && |batch| == |columns| && Rectangular(batch, rows) && i < rows
    requires |projected| == |names| == |picks|
    requires forall k :: 0 <= k < |names| ==> picks[k] < |columns| && columns[picks[k]].name == names[k]
    requires forall k :: 0 <= k < |names| ==> projected[k] == batch[picks[k]]
    ensures ProjectedValues(columns, picks, projected, i) == Lookups(RowsIn(columns, batch, rows)[i], names)
  {
    EveryPickedCell(columns, names, picks, batch, rows, projected, i);
    hide *;
    SameLookups(RowsIn(columns, batch, rows)[i], names, ProjectedValues(columns, picks, projected, i));
  }

  lemma EveryPickedCell(columns: seq<ColumnSchema>, names: seq<Name>, picks: seq<nat>, batch: Batch, rows: nat, projected: Batch, i: nat)
    requires DistinctNames(columns) && |batch| == |columns| && Rectangular(batch, rows) && i < rows
    requires |projected| == |names| == |picks|
    requires forall k :: 0 <= k < |names| ==> picks[k] < |columns| && columns[picks[k]].name == names[k]
    requires forall k :: 0 <= k < |names| ==> projected[k] == batch[picks[k]]
    ensures forall k :: 0 <= k < |names| ==>
              Lookup(RowsIn(columns, batch, rows)[i], names[k]) == ProjectedValues(columns, picks, projected, i)[k]
  {
    forall k | 0 <= k < |names|
      ensures Lookup(RowsIn(columns, batch, rows)[i], names[k]) == ProjectedValues(columns, picks, projected, i)[k]
    {
      CellOfRow(columns, batch, rows, i, picks[k]);
    }
  }

  lemma PickedCell(columns: seq<ColumnSchema>, names: seq<Name>, picks: seq<nat>, k: nat)
    requires PicksOf(FieldNames(columns), names) == Some(picks) && k < |names|
    ensures |picks| == |names| && picks[k] < |columns| && columns[picks[k]].name == names[k]
  {
    assert FirstOf(FieldNames(columns), names[k]) == Some(picks[k]);
  }

  lemma SameLookups(row: Row, names: seq<Name>, values: seq<Option<Value>>)
    requires |values| == |names| && forall k :: 0 <= k < |names| ==> Lookup(row, names[k]) == values[k]
    ensures values == Lookups(row, names)
  {
  }

  lemma CellOfRow(columns: seq<ColumnSchema>, batch: Batch, rows: nat, i: nat, c: nat)
    requires DistinctNames(columns) && |batch| == |columns| && Rectangular(batch, rows) && i < rows && c < |columns|
    ensures Lookup(RowsIn(columns, batch, rows)[i], columns[c].name) == Some(ValueAt(Chunk(columns[c].dataType, batch[c]), i))
  {
    hide RowAt;
    RowHas(columns, ChunksOf(columns, batch), i, c);
  }
}
