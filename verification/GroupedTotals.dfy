/** The aggregates of a plan, taken to be the totals that the accumulators keep: what the
    merge of partial results shows, row by row, is the plan's grouping. */
module GroupedTotals {
  import opened Wrappers
  import opened Sequences
  import opened Catalog
  import opened Expressions
  import opened LogicalPlans
  import A = Aggregates
  import H = HashAggregate
  import PA = ParallelAggregation

  /** The bits of the quotient of a sum and a count */
  type Quotient = (int, int) -> nat

  /** The accumulator built for an aggregate */
  function FuncOf(schema: seq<ColumnSchema>, f: AggFunc, column: Name): A.Aggregator {
    match f
    case Count => A.Count
    case Sum => A.Sum(TypeOf(schema, column).Some? && IsSigned(TypeOf(schema, column).value))
    case Avg => A.Avg
    case Min => A.Min
    case Max => A.Max
  }

  function Funcs(schema: seq<ColumnSchema>, specs: seq<AggSpec>): (fs: seq<A.Aggregator>)
    ensures |fs| == |specs| && forall j :: 0 <= j < |specs| ==> fs[j] == FuncOf(schema, specs[j].func, specs[j].column)
  {
    seq(|specs|, j requires 0 <= j < |specs| => FuncOf(schema, specs[j].func, specs[j].column))
  }

  /** What counts as a number; COUNT does not look at the values. */
  function Number(v: Value): int {
    if v.Num? then v.n else 0
  }

  function NumbersOf(values: seq<Value>): (ns: seq<int>)
    ensures |ns| == |values| && forall i :: 0 <= i < |values| ==> ns[i] == Number(values[i])
  {
    seq(|values|, i requires 0 <= i < |values| => Number(values[i]))
  }

  /** A total as it is shown; AVG divides at the very end. */
  function Shown(quotient: Quotient, d: A.Datum): Value {
    match d
    case Scalar(v) => Num(v)
    case Pair(sum, count) => Float(quotient(sum, count))
  }

  function AllShown(quotient: Quotient, data: seq<A.Datum>): (values: seq<Value>)
    ensures |values| == |data| && forall j :: 0 <= j < |data| ==> values[j] == Shown(quotient, data[j])
  {
    seq(|data|, j requires 0 <= j < |data| => Shown(quotient, data[j]))
  }

  /** Only COUNT takes values other than numbers. */
  ghost function Summed(schema: seq<ColumnSchema>, quotient: Quotient, f: AggFunc, column: Name, values: seq<Value>): Option<Value> {
    if f != Count && exists i :: 0 <= i < |values| && !values[i].Num? then None
    else
      var g := FuncOf(schema, f, column);
      Some(Shown(quotient, A.Emit(g, A.Total(g, A.Lifted(g, NumbersOf(values))))))
  }

  ghost function TotalsSummary(schema: seq<ColumnSchema>, quotient: Quotient): Summary {
    (f, column, values) => Summed(schema, quotient, f, column, values)
  }

  // ---- What the aggregates say ----

  predicate AllNumbers(values: seq<Value>) {
    forall i :: 0 <= i < |values| ==> values[i].Num?
  }

  /** The integers of the values */
  ghost predicate AreNumbers(values: seq<Value>, ns: seq<int>) {
    |ns| == |values| && forall i :: 0 <= i < |ns| ==> values[i] == Num(ns[i])
  }

  /** A SUM is an i64 over these columns, and a u64 over all others. */
  predicate SumsSigned(schema: seq<ColumnSchema>, column: Name) {
    TypeOf(schema, column) in {Some(I8), Some(I16), Some(I32), Some(I64)}
  }

  /** COUNT is the number of values, whatever they are. Of numbers, SUM is the exact sum
      wherever a 64-bit word can hold it, AVG the quotient of sum and count, MIN and MAX
      the least and greatest of them, or 0 where there is none. Nothing else has a total. */
  lemma SummaryMeans(schema: seq<ColumnSchema>, quotient: Quotient, f: AggFunc, column: Name, values: seq<Value>) returns (ns: seq<int>)
    ensures AllNumbers(values) ==> AreNumbers(values, ns)
    ensures var shown := TotalsSummary(schema, quotient)(f, column, values);
            && (f.Count? && |values| < 0x1_0000_0000_0000_0000 ==> shown == Some(Num(|values|)))
            && (!f.Count? ==> (shown.Some? <==> AllNumbers(values)))
            && (f.Sum? && AllNumbers(values) && A.InWord(SumsSigned(schema, column), A.SumOf(ns)) ==> shown == Some(Num(A.SumOf(ns))))
            && (f.Avg? && AllNumbers(values) && |values| < 0x1_0000_0000_0000_0000 ==>
                  shown == Some(Float(quotient(A.SumOf(ns), |values|))))
            && ((f.Min? || f.Max?) && values == [] ==> shown == Some(Num(0)))
            && (f.Min? && AllNumbers(values) && values != [] ==> IsLeast(ns, shown))
            && (f.Max? && AllNumbers(values) && values != [] ==> IsGreatest(ns, shown))
  {
    ns := NumbersOf(values);
    var g := FuncOf(schema, f, column);
    A.TotalMeans(g, ns);
    A.FittingTotals(g, ns);
    hide A.InWord, A.SumOf, A.Total, A.Lifted;
    assert f.Sum? ==> g == A.Sum(SumsSigned(schema, column));
  }

  ghost predicate IsLeast(ns: seq<int>, v: Option<Value>) {
    v.Some? && v.value.Num? && v.value.n in ns && forall n :: n in ns ==> v.value.n <= n
  }

  ghost predicate IsGreatest(ns: seq<int>, v: Option<Value>) {
    v.Some? && v.value.Num? && v.value.n in ns && forall n :: n in ns ==> n <= v.value.n
  }

  // ---- Rows as the accumulators see them ----

  function KeyOf(groupBy: seq<Name>, key: seq<Value>): Option<seq<Value>> {
    if groupBy == [] then None else Some(key)
  }

  function GroupKey(groupBy: seq<Name>, row: Row): seq<Value> {
    match AllOf(Lookups(row, groupBy))
    case Some(key) => key
    case None => []
  }

  function Argument(spec: AggSpec, row: Row): A.Datum {
    A.Scalar(if spec.column in row then Number(row[spec.column]) else 0)
  }

  /** A row's group key and the arguments of the aggregates */
  function InputRow(groupBy: seq<Name>, specs: seq<AggSpec>, row: Row): (input: A.Row<seq<Value>>)
    ensures input.key == KeyOf(groupBy, GroupKey(groupBy, row))
    ensures |input.data| == |specs| && forall j :: 0 <= j < |specs| ==> input.data[j] == Argument(specs[j], row)
  {
    A.Row(KeyOf(groupBy, GroupKey(groupBy, row)), seq(|specs|, j requires 0 <= j < |specs| => Argument(specs[j], row)))
  }

  function Input(groupBy: seq<Name>, specs: seq<AggSpec>): Row -> A.Row<seq<Value>> {
    (row: Row) => InputRow(groupBy, specs, row)
  }

  lemma InputsFit(schema: seq<ColumnSchema>, groupBy: seq<Name>, specs: seq<AggSpec>, rows: seq<Row>)
    ensures A.RowsFit(false, Funcs(schema, specs), Projected(Input(groupBy, specs), rows))
  {
  }

  /** An aggregated row under the names of the query */
  function Labeled(quotient: Quotient, groupBy: seq<Name>, specs: seq<AggSpec>, key: Option<seq<Value>>, data: seq<A.Datum>): Option<Row> {
    var values := if key.Some? then key.value else [];
    if |values| != |groupBy| || |data| != |specs| then None
    else Named(groupBy + OutputNames(specs), Somes(values) + Somes(AllShown(quotient, data)))
  }

  function Label(quotient: Quotient, groupBy: seq<Name>, specs: seq<AggSpec>): A.Row<seq<Value>> -> Option<Row> {
    (row: A.Row<seq<Value>>) => Labeled(quotient, groupBy, specs, row.key, row.data)
  }

  // ---- One group ----

  lemma {:induction false} NamedHasAll(names: seq<Name>, values: seq<Option<Value>>)
    requires |names| == |values| && Named(names, values).Some?
    ensures forall i :: 0 <= i < |values| ==> values[i].Some?
  {
    if names != [] {
      NamedHasAll(names[..|names| - 1], values[..|names| - 1]);
    }
  }

  function KeysBy(groupBy: seq<Name>): Row -> Option<seq<Value>> {
    row => AllOf(Lookups(row, groupBy))
  }

  function ArgumentOf(spec: AggSpec): Row -> Option<Value> {
    row => Lookup(row, spec.column)
  }

  /** The arguments of a group are the values its total is made of. */
  lemma {:induction false} ArgumentsAreValues(fs: seq<A.Aggregator>, groupBy: seq<Name>, specs: seq<AggSpec>, j: nat, rows: seq<Row>,
                                              keys: seq<seq<Value>>, arguments: seq<Value>, key: seq<Value>)
    requires j < |specs| == |fs| && (groupBy == [] ==> key == [])
    requires Mapped(KeysBy(groupBy), rows) == Some(keys) && Mapped(ArgumentOf(specs[j]), rows) == Some(arguments)
    requires |keys| == |arguments| == |rows| && A.RowsFit(false, fs, Projected(Input(groupBy, specs), rows))
    ensures NumbersOf(ArgumentsOf(keys, arguments, key))
         == A.GroupValues(fs, j, Projected(Input(groupBy, specs), rows), KeyOf(groupBy, key))
  {
    if rows != [] {
      var n, inputs := |rows| - 1, Projected(Input(groupBy, specs), rows);
      MappedLast(KeysBy(groupBy), rows);
      MappedLast(ArgumentOf(specs[j]), rows);
      LastInput(groupBy, specs, j, rows, keys[n], arguments[n]);
      OneMoreValue(fs, j, inputs, KeyOf(groupBy, key));
      hide *;
      ArgumentsAreValues(fs, groupBy, specs, j, rows[..n], keys[..n], arguments[..n], key);
      OneMoreArgument(keys, arguments, key);
      SameKey(groupBy, keys[n], key);
    }
  }

  lemma MappedLast<T>(f: Row -> Option<T>, rows: seq<Row>)
    requires rows != [] && Mapped(f, rows).Some?
    ensures var n, ts := |rows| - 1, Mapped(f, rows).value;
            |ts| == |rows| && Mapped(f, rows[..n]) == Some(ts[..n]) && f(rows[n]) == Some(ts[n])
  {
    MappedLength(f, rows[..|rows| - 1]);
  }

  lemma LastInput(groupBy: seq<Name>, specs: seq<AggSpec>, j: nat, rows: seq<Row>, key: seq<Value>, argument: Value)
    requires rows != [] && j < |specs|
    requires KeysBy(groupBy)(rows[|rows| - 1]) == Some(key) && ArgumentOf(specs[j])(rows[|rows| - 1]) == Some(argument)
    ensures var n, inputs := |rows| - 1, Projected(Input(groupBy, specs), rows);
            && inputs[..n] == Projected(Input(groupBy, specs), rows[..n])
            && inputs[n].key == KeyOf(groupBy, key) && |inputs[n].data| == |specs| && inputs[n].data[j] == A.Scalar(Number(argument))
    ensures groupBy == [] ==> key == []
  {
    var n, inputs := |rows| - 1, Projected(Input(groupBy, specs), rows);
    assert inputs[n] == InputRow(groupBy, specs, rows[n]);
  }

  lemma SameKey(groupBy: seq<Name>, a: seq<Value>, b: seq<Value>)
    requires groupBy == [] ==> a == b
    ensures a == b <==> KeyOf(groupBy, a) == KeyOf(groupBy, b)
  {
  }

  lemma OneMoreValue(fs: seq<A.Aggregator>, j: nat, inputs: seq<A.Row<seq<Value>>>, key: Option<seq<Value>>)
    requires j < |fs| && A.RowsFit(false, fs, inputs) && inputs != []
    ensures var n := |inputs| - 1;
            && A.RowsFit(false, fs, inputs[..n]) && |inputs[n].data| == |fs| && inputs[n].data[j].Scalar?
            && A.GroupValues(fs, j, inputs, key)
            == A.GroupValues(fs, j, inputs[..n], key) + if inputs[n].key == key then [inputs[n].data[j].v] else []
  {
    assert A.RowFits(false, fs, inputs[|inputs| - 1]);
  }

  lemma OneMoreArgument(keys: seq<seq<Value>>, arguments: seq<Value>, key: seq<Value>)
    requires |keys| == |arguments| > 0
    ensures var n := |keys| - 1;
            NumbersOf(ArgumentsOf(keys, arguments, key))
            == NumbersOf(ArgumentsOf(keys[..n], arguments[..n], key)) + if keys[n] == key then [Number(arguments[n])] else []
  {
  }

  /** One aggregate of one group: the plan's value is the total, as it is shown. */
  lemma SummarizedIsTotal(schema: seq<ColumnSchema>, quotient: Quotient, groupBy: seq<Name>, specs: seq<AggSpec>, j: nat,
                          rows: seq<Row>, keys: seq<seq<Value>>, key: seq<Value>)
    requires j < |specs| && (groupBy == [] ==> key == [])
    requires Mapped(KeysBy(groupBy), rows) == Some(keys)
    requires Summarized(TotalsSummary(schema, quotient), specs[j], rows, keys, key).Some?
    ensures var fs, inputs := Funcs(schema, specs), Projected(Input(groupBy, specs), rows);
            && A.RowsFit(false, fs, inputs)
            && Summarized(TotalsSummary(schema, quotient), specs[j], rows, keys, key)
            == Some(Shown(quotient, PA.GroupMeaning(fs, inputs, KeyOf(groupBy, key))[j]))
  {
    var fs, inputs, spec := Funcs(schema, specs), Projected(Input(groupBy, specs), rows), specs[j];
    InputsFit(schema, groupBy, specs, rows);
    MappedLength(row => Lookup(row, spec.column), rows);
    MappedLength(KeysBy(groupBy), rows);
    assert Mapped(row => Lookup(row, spec.column), rows) == Mapped(ArgumentOf(spec), rows);
    var arguments := Mapped(ArgumentOf(spec), rows).value;
    ArgumentsAreValues(fs, groupBy, specs, j, rows, keys, arguments, key);
    A.GroupTotalMeans(fs, j, inputs, KeyOf(groupBy, key));
    assert Summarized(TotalsSummary(schema, quotient), spec, rows, keys, key)
        == Summed(schema, quotient, spec.func, spec.column, ArgumentsOf(keys, arguments, key));
  }

  lemma ResultsHaveValues(summary: Summary, groupBy: seq<Name>, specs: seq<AggSpec>, rows: seq<Row>,
                          keys: seq<seq<Value>>, key: seq<Value>)
    requires GroupRow(summary, groupBy, specs, rows, keys, key).Some?
    ensures forall j :: 0 <= j < |specs| ==> Summarized(summary, specs[j], rows, keys, key).Some?
  {
    hide Summarized, Named;
    var results := seq(|specs|, i requires 0 <= i < |specs| => Summarized(summary, specs[i], rows, keys, key));
    NamedHasAll(groupBy + OutputNames(specs), Somes(key) + results);
    forall j | 0 <= j < |specs| ensures Summarized(summary, specs[j], rows, keys, key).Some? {
      assert (Somes(key) + results)[|key| + j] == results[j];
    }
  }

  lemma ResultsAreShown(schema: seq<ColumnSchema>, quotient: Quotient, groupBy: seq<Name>, specs: seq<AggSpec>,
                        rows: seq<Row>, keys: seq<seq<Value>>, key: seq<Value>)
    requires groupBy == [] ==> key == []
    requires Mapped(KeysBy(groupBy), rows) == Some(keys)
    requires GroupRow(TotalsSummary(schema, quotient), groupBy, specs, rows, keys, key).Some?
    ensures var fs, inputs := Funcs(schema, specs), Projected(Input(groupBy, specs), rows);
            && A.RowsFit(false, fs, inputs)
            && var shown := Somes(AllShown(quotient, PA.GroupMeaning(fs, inputs, KeyOf(groupBy, key))));
               && |shown| == |specs|
               && forall j :: 0 <= j < |specs| ==> Summarized(TotalsSummary(schema, quotient), specs[j], rows, keys, key) == shown[j]
  {
    InputsFit(schema, groupBy, specs, rows);
    ResultsHaveValues(TotalsSummary(schema, quotient), groupBy, specs, rows, keys, key);
    var fs, inputs := Funcs(schema, specs), Projected(Input(groupBy, specs), rows);
    var shown := Somes(AllShown(quotient, PA.GroupMeaning(fs, inputs, KeyOf(groupBy, key))));
    hide *;
    forall j | 0 <= j < |specs| ensures Summarized(TotalsSummary(schema, quotient), specs[j], rows, keys, key) == shown[j] {
      SummarizedIsTotal(schema, quotient, groupBy, specs, j, rows, keys, key);
    }
  }

  lemma GroupRowIs(summary: Summary, groupBy: seq<Name>, specs: seq<AggSpec>, rows: seq<Row>,
                   keys: seq<seq<Value>>, key: seq<Value>, results: seq<Option<Value>>)
    requires |key| == |groupBy| && |results| == |specs|
    requires forall j :: 0 <= j < |specs| ==> Summarized(summary, specs[j], rows, keys, key) == results[j]
    ensures GroupRow(summary, groupBy, specs, rows, keys, key) == Named(groupBy + OutputNames(specs), Somes(key) + results)
  {
    hide Summarized, Named;
    assert results == seq(|specs|, i requires 0 <= i < |specs| => Summarized(summary, specs[i], rows, keys, key));
  }

  /** A group's row in the plan's answer is its row in the sequential meaning. */
  lemma GroupRowIsMeaning(schema: seq<ColumnSchema>, quotient: Quotient, groupBy: seq<Name>, specs: seq<AggSpec>,
                          rows: seq<Row>, keys: seq<seq<Value>>, key: seq<Value>)
    requires groupBy == [] ==> key == []
    requires Mapped(KeysBy(groupBy), rows) == Some(keys)
    requires GroupRow(TotalsSummary(schema, quotient), groupBy, specs, rows, keys, key).Some?
    ensures var fs, inputs := Funcs(schema, specs), Projected(Input(groupBy, specs), rows);
            && A.RowsFit(false, fs, inputs)
            && Labeled(quotient, groupBy, specs, KeyOf(groupBy, key), PA.GroupMeaning(fs, inputs, KeyOf(groupBy, key)))
            == GroupRow(TotalsSummary(schema, quotient), groupBy, specs, rows, keys, key)
  {
    ResultsAreShown(schema, quotient, groupBy, specs, rows, keys, key);
    assert |key| == |groupBy|;
    var fs, inputs := Funcs(schema, specs), Projected(Input(groupBy, specs), rows);
    var shown := AllShown(quotient, PA.GroupMeaning(fs, inputs, KeyOf(groupBy, key)));
    hide GroupRow, Summarized, Named, Mapped, Shown, Funcs, KeysBy, Input, A.RowsFit, Somes, AllShown, PA.GroupMeaning, Projected;
    GroupRowIs(TotalsSummary(schema, quotient), groupBy, specs, rows, keys, key, Somes(shown));
  }

  // ---- All groups ----

  lemma {:induction false} GroupRowsAt(summary: Summary, groupBy: seq<Name>, specs: seq<AggSpec>, rows: seq<Row>,
                                       keys: seq<seq<Value>>, groups: seq<seq<Value>>)
    requires GroupRows(summary, groupBy, specs, rows, keys, groups).Some?
    ensures var out := GroupRows(summary, groupBy, specs, rows, keys, groups).value;
            |out| == |groups| && forall i :: 0 <= i < |groups| ==> GroupRow(summary, groupBy, specs, rows, keys, groups[i]) == Some(out[i])
  {
    hide GroupRow;
    if groups != [] {
      GroupRowsAt(summary, groupBy, specs, rows, keys, groups[..|groups| - 1]);
    }
  }

  lemma {:induction false} DistinctSame<T>(a: seq<T>, b: seq<T>)
    requires Distinct(a) && Distinct(b) && forall x :: x in a <==> x in b
    ensures multiset(a) == multiset(b)
  {
    forall x ensures multiset(a)[x] == multiset(b)[x] {
      DistinctCount(a, x);
      DistinctCount(b, x);
    }
  }

  lemma {:induction false} DistinctCount<T>(a: seq<T>, x: T)
    requires Distinct(a)
    ensures multiset(a)[x] == if x in a then 1 else 0
  {
    if a != [] {
      var front, last := a[..|a| - 1], a[|a| - 1];
      DistinctCount(front, x);
      assert a == front + [last];
    }
  }

  ghost function GroupsIn(groupBy: seq<Name>, keys: seq<seq<Value>>): seq<seq<Value>> {
    if groupBy == [] then [[]] else FirstSeen(keys)
  }

  lemma InputKeys(groupBy: seq<Name>, specs: seq<AggSpec>, rows: seq<Row>, keys: seq<seq<Value>>)
    requires Mapped(KeysBy(groupBy), rows) == Some(keys)
    ensures var inputKeys := A.KeysOf(Projected(Input(groupBy, specs), rows));
            |inputKeys| == |keys| && forall i :: 0 <= i < |keys| ==> inputKeys[i] == KeyOf(groupBy, keys[i])
  {
    MappedAt(KeysBy(groupBy), rows);
    forall i | 0 <= i < |rows| ensures A.KeysOf(Projected(Input(groupBy, specs), rows))[i] == KeyOf(groupBy, keys[i]) {
      assert KeysBy(groupBy)(rows[i]) == Some(keys[i]);
    }
  }

  lemma OnlyGroup(inputKeys: seq<Option<seq<Value>>>)
    requires forall i :: 0 <= i < |inputKeys| ==> inputKeys[i] == None
    ensures forall key :: key in [None] <==> key in [None] + inputKeys
  {
  }

  lemma GroupKeys(groupBy: seq<Name>, specs: seq<AggSpec>, rows: seq<Row>, keys: seq<seq<Value>>)
    requires Mapped(KeysBy(groupBy), rows) == Some(keys)
    ensures var groups := Projected(key => KeyOf(groupBy, key), GroupsIn(groupBy, keys));
            && Distinct(groups)
            && forall key :: key in groups <==>
                 key in H.InitialGroups<seq<Value>>(true, groupBy != []) + A.KeysOf(Projected(Input(groupBy, specs), rows))
  {
    InputKeys(groupBy, specs, rows, keys);
    var inputKeys, groups := A.KeysOf(Projected(Input(groupBy, specs), rows)), Projected(key => KeyOf(groupBy, key), GroupsIn(groupBy, keys));
    hide Mapped, KeysBy, Input, FirstSeen, A.KeysOf, Projected;
    if groupBy == [] {
      assert groups == [None];
      OnlyGroup(inputKeys);
    } else {
      SomesOfSeen(keys, FirstSeen(keys), inputKeys, groups);
      assert H.InitialGroups<seq<Value>>(true, groupBy != []) + inputKeys == inputKeys;
    }
  }

  lemma SomesOfSeen<T>(keys: seq<T>, seen: seq<T>, inputKeys: seq<Option<T>>, groups: seq<Option<T>>)
    requires Distinct(seen) && forall key :: key in seen <==> key in keys
    requires |inputKeys| == |keys| && forall i :: 0 <= i < |keys| ==> inputKeys[i] == Some(keys[i])
    requires |groups| == |seen| && forall i :: 0 <= i < |seen| ==> groups[i] == Some(seen[i])
    ensures Distinct(groups) && forall key :: key in groups <==> key in inputKeys
  {
    forall key | key in groups ensures key in inputKeys {
      var i :| 0 <= i < |groups| && groups[i] == key;
      assert seen[i] in keys;
      var k :| 0 <= k < |keys| && keys[k] == seen[i];
      assert inputKeys[k] == key;
    }
    forall key | key in inputKeys ensures key in groups {
      var k :| 0 <= k < |inputKeys| && inputKeys[k] == key;
      assert keys[k] in seen;
      var i :| 0 <= i < |seen| && seen[i] == keys[k];
      assert groups[i] == key;
    }
  }

  lemma {:induction false} MappedAt<T>(f: Row -> Option<T>, rows: seq<Row>)
    requires Mapped(f, rows).Some?
    ensures var ts := Mapped(f, rows).value; |ts| == |rows| && forall i :: 0 <= i < |rows| ==> f(rows[i]) == Some(ts[i])
  {
    if rows != [] {
      MappedAt(f, rows[..|rows| - 1]);
    }
  }

  /** The row of a group in the sequential meaning, under the names of the query */
  ghost function MeaningRow(quotient: Quotient, groupBy: seq<Name>, specs: seq<AggSpec>, fs: seq<A.Aggregator>,
                            inputs: seq<A.Row<seq<Value>>>): Option<seq<Value>> -> Option<Row>
    requires A.RowsFit(false, fs, inputs)
  {
    (key: Option<seq<Value>>) => Labeled(quotient, groupBy, specs, key, PA.GroupMeaning(fs, inputs, key))
  }

  lemma GroupedIsMeaning(schema: seq<ColumnSchema>, quotient: Quotient, groupBy: seq<Name>, specs: seq<AggSpec>,
                         rows: seq<Row>, keys: seq<seq<Value>>)
    requires Mapped(KeysBy(groupBy), rows) == Some(keys)
    requires Grouped(TotalsSummary(schema, quotient), groupBy, specs, rows).Some?
    ensures var fs, inputs := Funcs(schema, specs), Projected(Input(groupBy, specs), rows);
            && A.RowsFit(false, fs, inputs)
            && Projected(MeaningRow(quotient, groupBy, specs, fs, inputs), Projected(key => KeyOf(groupBy, key), GroupsIn(groupBy, keys)))
            == Projected(row => Some(row), Grouped(TotalsSummary(schema, quotient), groupBy, specs, rows).value)
  {
    InputsFit(schema, groupBy, specs, rows);
    var fs, inputs, groups := Funcs(schema, specs), Projected(Input(groupBy, specs), rows), GroupsIn(groupBy, keys);
    var out := Grouped(TotalsSummary(schema, quotient), groupBy, specs, rows).value;
    GroupRowsAt(TotalsSummary(schema, quotient), groupBy, specs, rows, keys, groups);
    hide GroupRow, GroupRows, Grouped, Labeled, FirstSeen, A.RowsFit;
    forall i | 0 <= i < |groups|
      ensures MeaningRow(quotient, groupBy, specs, fs, inputs)(KeyOf(groupBy, groups[i])) == Some(out[i])
    {
      GroupRowIsMeaning(schema, quotient, groupBy, specs, rows, keys, groups[i]);
    }
  }

  lemma MergedIsMeaning(quotient: Quotient, groupBy: seq<Name>, specs: seq<AggSpec>, fs: seq<A.Aggregator>,
                        inputs: seq<A.Row<seq<Value>>>, merged: seq<A.Row<seq<Value>>>)
    requires A.RowsFit(false, fs, inputs) && PA.IsMap(merged, PA.Meaning(groupBy != [], fs, inputs))
    ensures Projected(Label(quotient, groupBy, specs), merged)
         == Projected(MeaningRow(quotient, groupBy, specs, fs, inputs), A.KeysOf(merged))
    ensures Distinct(A.KeysOf(merged))
    ensures forall key :: key in A.KeysOf(merged) <==>
              key in H.InitialGroups<seq<Value>>(true, groupBy != []) + A.KeysOf(inputs)
  {
    hide Labeled, A.RowsFit;
    forall key | key in A.KeysOf(merged) ensures key in PA.Meaning(groupBy != [], fs, inputs) {
      var i :| 0 <= i < |merged| && A.KeysOf(merged)[i] == key;
      assert merged[i].key == key;
    }
  }

  /** Merged rows that are, as a map, the sequential meaning of the inputs are the rows of
      the plan's grouping, in some order. */
  lemma MergedIsGrouped(schema: seq<ColumnSchema>, quotient: Quotient, groupBy: seq<Name>, specs: seq<AggSpec>,
                        rows: seq<Row>, merged: seq<A.Row<seq<Value>>>)
    requires Grouped(TotalsSummary(schema, quotient), groupBy, specs, rows).Some?
    requires var fs, inputs := Funcs(schema, specs), Projected(Input(groupBy, specs), rows);
             A.RowsFit(false, fs, inputs) && PA.IsMap(merged, PA.Meaning(groupBy != [], fs, inputs))
    ensures multiset(Projected(Label(quotient, groupBy, specs), merged))
         == multiset(Projected(row => Some(row), Grouped(TotalsSummary(schema, quotient), groupBy, specs, rows).value))
  {
    var fs, inputs := Funcs(schema, specs), Projected(Input(groupBy, specs), rows);
    assert Mapped(row => AllOf(Lookups(row, groupBy)), rows) == Mapped(KeysBy(groupBy), rows);
    var keys := Mapped(KeysBy(groupBy), rows).value;
    var groupKeys := Projected(key => KeyOf(groupBy, key), GroupsIn(groupBy, keys));
    hide *;
    GroupKeys(groupBy, specs, rows, keys);
    GroupedIsMeaning(schema, quotient, groupBy, specs, rows, keys);
    MergedIsMeaning(quotient, groupBy, specs, fs, inputs, merged);
    DistinctSame(A.KeysOf(merged), groupKeys);
    A.ProjectedPermutation(MeaningRow(quotient, groupBy, specs, fs, inputs), A.KeysOf(merged), groupKeys);
  }
}
