/** Between a worker's partial aggregation and the merge: a partial result travels as
    named columns. The worker's projection picks columns by the names of the SELECT list;
    the merge looks for its group columns and its accumulators' columns by name. */
module Exchange {
  import opened Wrappers
  import opened Sequences
  import opened Catalog
  import opened Expressions
  import opened LogicalPlans
  import opened Projections
  import opened GroupedTotals
  import A = Aggregates
  import H = HashAggregate

  /** Where the merge finds its columns: the group columns and states of the partial
      result that it reads as its own */
  datatype Wires = Wires(keys: seq<nat>, states: seq<nat>)

  /** The columns of the partial result that the merge's names lead to */
  function Traced(fields: seq<Name>, items: seq<Name>, names: seq<Name>): (columns: Option<seq<nat>>)
    ensures columns.Some? <==> Among(items, fields) && Among(names, items)
    ensures columns.Some? ==>
              |columns.value| == |names| && forall i :: 0 <= i < |names| ==> FirstOf(fields, names[i]) == Some(columns.value[i])
  {
    var picks, lookups := PicksOf(fields, items), PicksOf(items, names);
    if picks.None? || lookups.None? then None
    else Some(seq(|names|, i requires 0 <= i < |names| => picks.value[lookups.value[i]]))
  }

  /** Columns on one side of the boundary between group columns and states */
  predicate Within(columns: seq<nat>, from: nat, to: nat) {
    forall i :: 0 <= i < |columns| ==> from <= columns[i] < to
  }

  function Shifted(columns: seq<nat>, n: nat): (shifted: seq<nat>)
    requires forall i :: 0 <= i < |columns| ==> n <= columns[i]
    ensures |shifted| == |columns| && forall i :: 0 <= i < |columns| ==> shifted[i] == columns[i] - n
  {
    seq(|columns|, i requires 0 <= i < |columns| => columns[i] - n)
  }

  /** Nothing if a column is missing, or if it is a state where a group column should be
      or the other way round */
  function Wiring(groupBy: seq<Name>, outputs: seq<Name>, items: seq<Name>): Option<Wires> {
    var fields, n := groupBy + outputs, |groupBy|;
    var keys, states := Traced(fields, items, groupBy), Traced(fields, items, outputs);
    if keys.None? || states.None? then None
    else if !Within(keys.value, 0, n) || !Within(states.value, n, |fields|) then None
    else Some(Wires(keys.value, Shifted(states.value, n)))
  }

  /** The SELECT list names only what the aggregation puts out, and leaves no group column
      and no aggregate out; no group column is named like an aggregate. */
  predicate SelectListFits(groupBy: seq<Name>, outputs: seq<Name>, items: seq<Name>) {
    && Among(items, groupBy + outputs) && Among(groupBy, items) && Among(outputs, items)
    && forall j :: 0 <= j < |outputs| ==> outputs[j] !in groupBy
  }

  lemma FirstInFront(a: seq<Name>, b: seq<Name>, name: Name)
    requires FirstOf(a + b, name).Some?
    ensures var i := FirstOf(a + b, name).value;
            && i < |a| + |b| && (i < |a| <==> name in a)
            && (if i < |a| then a[i] == name else b[i - |a|] == name)
  {
    var i := FirstOf(a + b, name).value;
    assert (a + b)[i] == name;
    FirstIsFirst(a + b, name);
    if i >= |a| {
      assert a == (a + b)[..i][..|a|];
    }
  }

  /** Each name is found in the part of the fields where it stands. */
  lemma TracedFields(groupBy: seq<Name>, outputs: seq<Name>, items: seq<Name>, names: seq<Name>)
    requires Traced(groupBy + outputs, items, names).Some?
    ensures var columns := Traced(groupBy + outputs, items, names).value;
            forall i {:trigger columns[i]} :: 0 <= i < |names| ==>
              && columns[i] < |groupBy| + |outputs| && (columns[i] < |groupBy| <==> names[i] in groupBy)
              && (if columns[i] < |groupBy| then groupBy[columns[i]] == names[i] else outputs[columns[i] - |groupBy|] == names[i])
  {
    hide Among, FirstOf;
    forall i | 0 <= i < |names| ensures FirstOf(groupBy + outputs, names[i]).Some? {
    }
    var columns := Traced(groupBy + outputs, items, names).value;
    hide Traced;
    forall i {:trigger columns[i]} | 0 <= i < |names|
      ensures columns[i] < |groupBy| + |outputs| && (columns[i] < |groupBy| <==> names[i] in groupBy)
      ensures if columns[i] < |groupBy| then groupBy[columns[i]] == names[i] else outputs[columns[i] - |groupBy|] == names[i]
    {
      FirstInFront(groupBy, outputs, names[i]);
    }
  }

  /** Each place refers to a name equal to the one it stands for. */
  predicate Leads(names: seq<Name>, places: seq<nat>) {
    && |places| == |names|
    && forall i {:trigger places[i]} :: 0 <= i < |places| ==> places[i] < |names| && names[places[i]] == names[i]
  }

  lemma KeysLead(groupBy: seq<Name>, columns: seq<nat>)
    requires |columns| == |groupBy| && Within(columns, 0, |groupBy|)
    requires forall i {:trigger columns[i]} :: 0 <= i < |columns| ==> columns[i] < |groupBy| ==> groupBy[columns[i]] == groupBy[i]
    ensures Leads(groupBy, columns)
  {
  }

  lemma StatesLead(groupBy: seq<Name>, outputs: seq<Name>, columns: seq<nat>)
    requires |columns| == |outputs| && Within(columns, |groupBy|, |groupBy| + |outputs|)
    requires forall j {:trigger columns[j]} :: 0 <= j < |columns| ==> outputs[columns[j] - |groupBy|] == outputs[j]
    ensures Leads(outputs, Shifted(columns, |groupBy|))
  {
  }

  lemma TracedKeys(groupBy: seq<Name>, outputs: seq<Name>, items: seq<Name>)
    requires Traced(groupBy + outputs, items, groupBy).Some?
    ensures var columns := Traced(groupBy + outputs, items, groupBy).value;
            Within(columns, 0, |groupBy|) && Leads(groupBy, columns)
  {
    TracedFields(groupBy, outputs, items, groupBy);
    var columns := Traced(groupBy + outputs, items, groupBy).value;
    hide *;
    KeysWithin(groupBy, columns);
    KeysLead(groupBy, columns);
  }

  lemma TracedStates(groupBy: seq<Name>, outputs: seq<Name>, items: seq<Name>)
    requires Traced(groupBy + outputs, items, outputs).Some?
    ensures var columns := Traced(groupBy + outputs, items, outputs).value;
            && (Within(columns, |groupBy|, |groupBy + outputs|) <==> forall j :: 0 <= j < |outputs| ==> outputs[j] !in groupBy)
            && (Within(columns, |groupBy|, |groupBy + outputs|) ==> Leads(outputs, Shifted(columns, |groupBy|)))
  {
    TracedFields(groupBy, outputs, items, outputs);
    var columns := Traced(groupBy + outputs, items, outputs).value;
    hide Traced, Among, FirstOf;
    StatesWithin(groupBy, outputs, columns);
    if Within(columns, |groupBy|, |groupBy + outputs|) {
      StatesLead(groupBy, outputs, columns);
    }
  }

  /** The merge finds all its columns exactly if the SELECT list fits, and then each under
      its own name. */
  lemma WiredExactlyWhen(groupBy: seq<Name>, outputs: seq<Name>, items: seq<Name>)
    ensures Wiring(groupBy, outputs, items).Some? <==> SelectListFits(groupBy, outputs, items)
    ensures Wiring(groupBy, outputs, items).Some? ==>
              Leads(groupBy, Wiring(groupBy, outputs, items).value.keys) && Leads(outputs, Wiring(groupBy, outputs, items).value.states)
  {
    if Traced(groupBy + outputs, items, groupBy).Some? { TracedKeys(groupBy, outputs, items); }
    if Traced(groupBy + outputs, items, outputs).Some? { TracedStates(groupBy, outputs, items); }
    hide Among, FirstOf, Traced, PicksOf, Within, Leads;
  }

  lemma KeysWithin(groupBy: seq<Name>, columns: seq<nat>)
    requires |columns| == |groupBy|
    requires forall i {:trigger columns[i]} :: 0 <= i < |columns| ==> (columns[i] < |groupBy| <==> groupBy[i] in groupBy)
    ensures Within(columns, 0, |groupBy|)
  {
  }

  lemma StatesWithin(groupBy: seq<Name>, outputs: seq<Name>, columns: seq<nat>)
    requires |columns| == |outputs|
    requires forall j {:trigger columns[j]} :: 0 <= j < |columns| ==>
               columns[j] < |groupBy| + |outputs| && (columns[j] < |groupBy| <==> outputs[j] in groupBy)
    ensures Within(columns, |groupBy|, |groupBy| + |outputs|) <==> forall j :: 0 <= j < |outputs| ==> outputs[j] !in groupBy
  {
    forall j | 0 <= j < |outputs| && outputs[j] in groupBy ensures columns[j] < |groupBy| {
    }
  }

  // ---- Rows of a partial result ----

  function At<T>(s: seq<T>, places: seq<nat>): (picked: seq<T>)
    requires Within(places, 0, |s|)
    ensures |picked| == |places| && forall i :: 0 <= i < |places| ==> picked[i] == s[places[i]]
  {
    seq(|places|, i requires 0 <= i < |places| => s[places[i]])
  }

  /** The wires stay within the row. */
  predicate Reaches(w: Wires, r: A.Row<seq<Value>>) {
    (r.key.Some? ==> Within(w.keys, 0, |r.key.value|)) && Within(w.states, 0, |r.data|)
  }

  /** A row of a partial result as the merge reads it */
  function Rewired(w: Wires, r: A.Row<seq<Value>>): A.Row<seq<Value>>
    requires Reaches(w, r)
  {
    A.Row(if r.key.Some? then Some(At(r.key.value, w.keys)) else None, At(r.data, w.states))
  }

  /** Equal names stand over equal entries. */
  ghost predicate Consistent<T>(names: seq<Name>, entries: seq<T>) {
    |entries| == |names| && forall i, k :: 0 <= i < |names| && 0 <= k < |names| && names[i] == names[k] ==> entries[i] == entries[k]
  }

  lemma AtLeads<T>(names: seq<Name>, entries: seq<T>, places: seq<nat>)
    requires Consistent(names, entries) && Leads(names, places)
    ensures Within(places, 0, |entries|) && At(entries, places) == entries
  {
  }

  ghost predicate ConsistentRow(groupBy: seq<Name>, outputs: seq<Name>, r: A.Row<seq<Value>>) {
    (r.key.Some? ==> Consistent(groupBy, r.key.value)) && Consistent(outputs, r.data)
  }

  /** What the merge reads is what the worker sent. */
  lemma RewiredIsSame(groupBy: seq<Name>, outputs: seq<Name>, w: Wires, r: A.Row<seq<Value>>)
    requires Leads(groupBy, w.keys) && Leads(outputs, w.states) && ConsistentRow(groupBy, outputs, r)
    ensures Reaches(w, r) && Rewired(w, r) == r
  {
    hide Consistent, Leads, Within;
    if r.key.Some? { AtLeads(groupBy, r.key.value, w.keys); }
    AtLeads(outputs, r.data, w.states);
  }

  // ---- Partial results are consistent ----

  lemma {:induction false} LookupsAt(row: Row, names: seq<Name>)
    requires AllOf(Lookups(row, names)).Some?
    ensures var values := AllOf(Lookups(row, names)).value;
            |values| == |names| && forall i :: 0 <= i < |names| ==> Lookup(row, names[i]) == Some(values[i])
  {
    AllOfAt(Lookups(row, names));
  }

  lemma {:induction false} AllOfAt(options: seq<Option<Value>>)
    requires AllOf(options).Some?
    ensures |AllOf(options).value| == |options|
    ensures forall i :: 0 <= i < |options| ==> options[i] == Some(AllOf(options).value[i])
  {
    if options != [] {
      AllOfAt(options[..|options| - 1]);
    }
  }

  lemma KeyIsConsistent(groupBy: seq<Name>, row: Row)
    requires KeysBy(groupBy)(row).Some?
    ensures Consistent(groupBy, GroupKey(groupBy, row))
  {
    LookupsAt(row, groupBy);
  }

  /** Two aggregates alike have the same total in every group. */
  lemma {:induction false} SameTotals<K>(fs: seq<A.Aggregator>, j: nat, k: nat, rows: seq<A.Row<K>>, key: Option<K>)
    requires j < |fs| && k < |fs| && fs[j] == fs[k] && A.RowsFit(false, fs, rows)
    requires forall i :: 0 <= i < |rows| ==> |rows[i].data| == |fs| && rows[i].data[j] == rows[i].data[k]
    ensures A.CellsOf(false, fs, j, rows, key) == A.CellsOf(false, fs, k, rows, key)
  {
    if rows != [] {
      SameTotals(fs, j, k, rows[..|rows| - 1], key);
    }
  }

  /** A name says which aggregate of which column it is. */
  lemma OutputNameSays(f: AggFunc, c: Name, g: AggFunc, d: Name)
    requires OutputName(f, c) == OutputName(g, d)
    ensures f == g && c == d
  {
    var m, n := OutputName(f, c), OutputName(g, d);
    assert m[0] == FuncName(f)[0] && m[1] == FuncName(f)[1] && n[0] == FuncName(g)[0] && n[1] == FuncName(g)[1];
    assert f == g;
    var k := |FuncName(f)| + 1;
    assert c == m[k..|m| - 1] && d == n[k..|n| - 1];
  }

  ghost predicate NamedAfter(specs: seq<AggSpec>) {
    forall j :: 0 <= j < |specs| ==> specs[j].outputName == OutputName(specs[j].func, specs[j].column)
  }

  lemma DataIsConsistent(schema: seq<ColumnSchema>, groupBy: seq<Name>, specs: seq<AggSpec>, rows: seq<Row>, r: A.Row<seq<Value>>)
    requires NamedAfter(specs) && A.RowsFit(false, Funcs(schema, specs), Projected(Input(groupBy, specs), rows))
    requires r == H.OutputRow(false, Funcs(schema, specs), Projected(Input(groupBy, specs), rows), r.key)
    ensures Consistent(OutputNames(specs), r.data)
  {
    var fs, inputs := Funcs(schema, specs), Projected(Input(groupBy, specs), rows);
    assert |r.data| == |specs|;
    forall j, k | 0 <= j < |specs| && 0 <= k < |specs| && OutputNames(specs)[j] == OutputNames(specs)[k] ensures r.data[j] == r.data[k] {
      OutputNameSays(specs[j].func, specs[j].column, specs[k].func, specs[k].column);
      SameTotals(fs, j, k, inputs, r.key);
    }
  }

  /** Every row of a worker's partial result is consistent. */
  lemma PartialIsConsistent(schema: seq<ColumnSchema>, groupBy: seq<Name>, specs: seq<AggSpec>, rows: seq<Row>)
    requires NamedAfter(specs) && forall i :: 0 <= i < |rows| ==> KeysBy(groupBy)(rows[i]).Some?
    ensures var fs, inputs := Funcs(schema, specs), Projected(Input(groupBy, specs), rows);
            && A.RowsFit(false, fs, inputs)
            && var partial := H.Answer(false, groupBy != [], fs, inputs);
               forall i :: 0 <= i < |partial| ==> ConsistentRow(groupBy, OutputNames(specs), partial[i])
  {
    InputsFit(schema, groupBy, specs, rows);
    var fs, inputs := Funcs(schema, specs), Projected(Input(groupBy, specs), rows);
    var partial, groups := H.Answer(false, groupBy != [], fs, inputs), H.GroupsOf(false, groupBy != [], inputs);
    forall i | 0 <= i < |partial| ensures ConsistentRow(groupBy, OutputNames(specs), partial[i]) {
      DataIsConsistent(schema, groupBy, specs, rows, partial[i]);
      assert groups[i] in H.InitialGroups<seq<Value>>(false, groupBy != []) + A.KeysOf(inputs);
      assert groups[i] in A.KeysOf(inputs);
      var k :| 0 <= k < |inputs| && A.KeysOf(inputs)[k] == groups[i];
      assert inputs[k] == InputRow(groupBy, specs, rows[k]);
      KeyIsConsistent(groupBy, rows[k]);
    }
  }
}
