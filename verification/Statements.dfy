/** SELECT statements as they are written: what the frontend makes of them, and that the
    plan's meaning is what the statement says. */
module Statements {
  import opened Wrappers
  import opened Sequences
  import opened Catalog
  import opened Expressions
  import opened LogicalPlans
  import opened Clauses
  import opened Queries
  import opened GroupedTotals
  import opened QueryAnswers
  import X = Exchange

  /** `*`, a column, or an aggregate of a column */
  datatype SqlItem = Star | ItemColumn(name: Name) | ItemAggregate(func: AggFunc, column: Name)

  datatype SqlSelect = SqlSelect(table: Name, where: Option<SqlExpr>, groupBy: seq<Name>, items: seq<SqlItem>, limit: Option<nat>)

  // ---- Lowering ----

  function Columns(table: Name, names: seq<Name>): (es: seq<LogicalExpr>)
    ensures |es| == |names| && forall i :: 0 <= i < |names| ==> es[i] == Column(table, names[i])
  {
    seq(|names|, i requires 0 <= i < |names| => Column(table, names[i]))
  }

  function SchemaNames(schema: seq<ColumnSchema>): (names: seq<Name>)
    ensures |names| == |schema| && forall i :: 0 <= i < |schema| ==> names[i] == schema[i].name
  {
    seq(|schema|, i requires 0 <= i < |schema| => schema[i].name)
  }

  function LowerItem(schema: seq<ColumnSchema>, table: Name, item: SqlItem): seq<LogicalExpr> {
    match item
    case Star => Columns(table, SchemaNames(schema))
    case ItemColumn(name) => [Column(table, name)]
    case ItemAggregate(f, column) => [Aggregate(f, column)]
  }

  /** `lower_projection` */
  function LowerItems(schema: seq<ColumnSchema>, table: Name, items: seq<SqlItem>): seq<LogicalExpr> {
    if items == [] then []
    else LowerItems(schema, table, items[..|items| - 1]) + LowerItem(schema, table, items[|items| - 1])
  }

  function LowerSelect(schema: seq<ColumnSchema>, s: SqlSelect): SelectQuery {
    SelectQuery(s.table, if s.where.Some? then Some(LowerSql(s.table, s.where.value)) else None,
                Columns(s.table, s.groupBy), LowerItems(schema, s.table, s.items), s.limit)
  }

  // ---- What a statement says ----

  /** The names of the result's columns */
  function ResultNames(schema: seq<ColumnSchema>, items: seq<SqlItem>): seq<Name> {
    if items == [] then []
    else
      var last := items[|items| - 1];
      ResultNames(schema, items[..|items| - 1])
      + match last
        case Star => SchemaNames(schema)
        case ItemColumn(name) => [name]
        case ItemAggregate(f, column) => [OutputName(f, column)]
  }

  predicate Aggregates(s: SqlSelect) {
    s.groupBy != [] || exists i :: 0 <= i < |s.items| && s.items[i].ItemAggregate?
  }

  /** The rows that the WHERE clause is true of */
  ghost function ChosenBy(where: Option<SqlExpr>): Row -> bool {
    row => where.None? || Says(where.value, row) == Some(Flag(true))
  }

  function Least(limit: Option<nat>, n: nat): nat {
    if limit.Some? && limit.value < n then limit.value else n
  }

  /** The row has just these columns, with the values they have in `from`. */
  ghost predicate IsPick(names: seq<Name>, from: Row, row: Row) {
    row.Keys == Elements(names) && forall name :: name in names ==> name in from && name in row && row[name] == from[name]
  }

  /** Without aggregates: the first rows, up to the limit, that the clause is true of, each
      cut down to the SELECT list */
  ghost predicate SaysRows(schema: seq<ColumnSchema>, s: SqlSelect, rows: seq<Row>, out: seq<Row>) {
    var chosen := Kept(ChosenBy(s.where), rows);
    && |out| == Least(s.limit, |chosen|)
    && forall i :: 0 <= i < |out| ==> IsPick(ResultNames(schema, s.items), chosen[i], out[i])
  }

  /** The row has this value in each of the columns. */
  ghost predicate HasKey(groupBy: seq<Name>, row: Row, key: seq<Value>) {
    |key| == |groupBy| && forall j :: 0 <= j < |key| ==> groupBy[j] in row && row[groupBy[j]] == key[j]
  }

  /** The keys of the rows, each once, in order of first appearance; without GROUP BY the
      one empty key */
  ghost predicate AreGroups(groupBy: seq<Name>, rows: seq<Row>, groups: seq<seq<Value>>) {
    if groupBy == [] then groups == [[]]
    else exists keys: seq<seq<Value>> ::
      |keys| == |rows| && (forall i :: 0 <= i < |rows| ==> HasKey(groupBy, rows[i], keys[i])) && groups == FirstSeen(keys)
  }

  /** `value` is the summary of the column's values in these rows. */
  ghost predicate IsSummary(summary: Summary, f: AggFunc, column: Name, rows: seq<Row>, value: Value) {
    exists values: seq<Value> ::
      && |values| == |rows| && (forall i :: 0 <= i < |rows| ==> column in rows[i] && rows[i][column] == values[i])
      && summary(f, column, values) == Some(value)
  }

  /** A group's row: the group's value for each of its columns that is asked for, and for
      each aggregate that is asked for the summary over the rows with the group's key */
  ghost predicate IsGroupRow(summary: Summary, schema: seq<ColumnSchema>, s: SqlSelect, rows: seq<Row>, key: seq<Value>, row: Row) {
    && row.Keys == Elements(ResultNames(schema, s.items))
    && (forall k :: 0 <= k < |s.items| && s.items[k].ItemAggregate? ==>
          && OutputName(s.items[k].func, s.items[k].column) in row
          && IsSummary(summary, s.items[k].func, s.items[k].column, Kept(r => HasKey(s.groupBy, r, key), rows),
                       row[OutputName(s.items[k].func, s.items[k].column)]))
    && (forall j :: 0 <= j < |s.groupBy| && j < |key| && s.groupBy[j] in row && !IsOutput(s.items, s.groupBy[j]) ==>
          row[s.groupBy[j]] == key[j])
  }

  /** The name is that of an aggregate of the SELECT list. */
  predicate IsOutput(items: seq<SqlItem>, name: Name) {
    exists k :: 0 <= k < |items| && items[k].ItemAggregate? && OutputName(items[k].func, items[k].column) == name
  }

  /** With aggregates or GROUP BY: a row per group of the rows that the clause is true of,
      up to the limit */
  ghost predicate SaysGroups(summary: Summary, schema: seq<ColumnSchema>, s: SqlSelect, rows: seq<Row>, out: seq<Row>) {
    var chosen := Kept(ChosenBy(s.where), rows);
    exists groups :: AreGroups(s.groupBy, chosen, groups) && |out| == Least(s.limit, |groups|)
      && forall i :: 0 <= i < |out| ==> IsGroupRow(summary, schema, s, chosen, groups[i], out[i])
  }

  // ---- Names and places ----

  lemma {:induction false} ItemsAreNamed(schema: seq<ColumnSchema>, table: Name, items: seq<SqlItem>)
    ensures NamesOf(LowerItems(schema, table, items)) == Some(ResultNames(schema, items))
    ensures forall i :: 0 <= i < |LowerItems(schema, table, items)| ==>
              LowerItems(schema, table, items)[i].Column? || LowerItems(schema, table, items)[i].Aggregate?
  {
    if items != [] {
      var last := |items| - 1;
      ItemsAreNamed(schema, table, items[..last]);
      NamesOfConcat(LowerItems(schema, table, items[..last]), LowerItem(schema, table, items[last]));
      match items[last]
      case Star => ColumnsAreNamed(table, SchemaNames(schema));
      case ItemColumn(name) => OneName(Column(table, name));
      case ItemAggregate(f, column) => OneName(Aggregate(f, column));
    }
  }

  lemma {:induction false} NamesOfConcat(a: seq<LogicalExpr>, b: seq<LogicalExpr>)
    ensures NamesOf(a + b) == if NamesOf(a).None? || NamesOf(b).None? then None else Some(NamesOf(a).value + NamesOf(b).value)
  {
    if b == [] {
      assert a + b == a;
      assert NamesOf(a).Some? ==> NamesOf(a).value + [] == NamesOf(a).value;
    } else {
      var front, last := b[..|b| - 1], b[|b| - 1];
      NamesOfConcat(a, front);
      assert (a + b)[..|a + b| - 1] == a + front && (a + b)[|a + b| - 1] == last;
      hide NameOf;
      if NamesOf(a).Some? && NamesOf(front).Some? && NameOf(last).Some? {
        Associates(NamesOf(a).value, NamesOf(front).value, [NameOf(last).value]);
      }
    }
  }

  lemma {:induction false} ColumnsAreNamed(table: Name, names: seq<Name>)
    ensures NamesOf(Columns(table, names)) == Some(names) && AllColumns(Columns(table, names))
  {
    if names != [] {
      var last := |names| - 1;
      ColumnsAreNamed(table, names[..last]);
      assert Columns(table, names)[..last] == Columns(table, names[..last]);
      assert names == names[..last] + [names[last]];
    }
  }

  lemma {:induction false} AggregatesAmong(schema: seq<ColumnSchema>, table: Name, items: seq<SqlItem>)
    ensures AggregatesIn(LowerItems(schema, table, items)) != [] <==> exists i :: 0 <= i < |items| && items[i].ItemAggregate?
  {
    if items != [] {
      var last := |items| - 1;
      var front, item := LowerItems(schema, table, items[..last]), LowerItem(schema, table, items[last]);
      AggregatesAmong(schema, table, items[..last]);
      KeptOfConcat((e: LogicalExpr) => e.Aggregate?, front, item);
      AggregatesInItem(schema, table, items[last]);
      assert AggregatesIn(front + item) == AggregatesIn(front) + AggregatesIn(item);
      assert (exists i :: 0 <= i < |items| && items[i].ItemAggregate?) <==>
        items[last].ItemAggregate? || exists i :: 0 <= i < last && items[..last][i].ItemAggregate?;
    }
  }

  lemma AggregatesInItem(schema: seq<ColumnSchema>, table: Name, item: SqlItem)
    ensures AggregatesIn(LowerItem(schema, table, item)) == if item.ItemAggregate? then [Aggregate(item.func, item.column)] else []
  {
    if item.ItemAggregate? {
      OneSpec(Aggregate(item.func, item.column));
    } else {
      NoAggregates(LowerItem(schema, table, item));
    }
  }

  lemma {:induction false} NoAggregates(es: seq<LogicalExpr>)
    requires AllColumns(es)
    ensures AggregatesIn(es) == []
  {
    if es != [] { NoAggregates(es[..|es| - 1]); }
  }

  // ---- The rows that are chosen ----

  lemma {:induction false} SelectedIsChosen(table: Name, where: SqlExpr, rows: seq<Row>)
    requires IntegersFit(where) && Selected(row => Truth(Eval(LowerSql(table, where), row)), rows).Some?
    ensures Selected(row => Truth(Eval(LowerSql(table, where), row)), rows) == Some(Kept(ChosenBy(Some(where)), rows))
  {
    if rows != [] {
      SelectedIsChosen(table, where, rows[..|rows| - 1]);
      LoweringSays(table, where, rows[|rows| - 1]);
    }
  }

  lemma {:induction false} AllAreChosen(rows: seq<Row>)
    ensures Kept(ChosenBy(None), rows) == rows
  {
    if rows != [] {
      AllAreChosen(rows[..|rows| - 1]);
      assert rows == rows[..|rows| - 1] + [rows[|rows| - 1]];
    }
  }

  /** The plan below aggregation and projection */
  function SourceOf(q: SelectQuery): LogicalPlan {
    if q.condition.Some? then Filter(q.condition.value, Scan(q.table)) else Scan(q.table)
  }

  lemma SourceSays(summary: Summary, schema: seq<ColumnSchema>, s: SqlSelect, rows: seq<Row>)
    requires s.where.Some? ==> IntegersFit(s.where.value)
    requires Answer(summary, SourceOf(LowerSelect(schema, s)), rows).Some?
    ensures Answer(summary, SourceOf(LowerSelect(schema, s)), rows) == Some(Kept(ChosenBy(s.where), rows))
  {
    assert Answer(summary, Scan(s.table), rows) == Some(rows);
    hide Selected, Kept, LowerSql, LowerItems;
    if s.where.Some? {
      SelectedIsChosen(s.table, s.where.value, rows);
    } else {
      AllAreChosen(rows);
    }
  }

  // ---- Projection and limit ----

  lemma PickIs(names: seq<Name>, from: Row)
    requires ProjectTo(names)(from).Some?
    ensures IsPick(names, from, ProjectTo(names)(from).value)
  {
    NamedHasAll(names, Lookups(from, names));
    forall i | 0 <= i < |names| ensures names[i] in from {
      assert Lookups(from, names)[i].Some?;
    }
    NamedKeys(names, Lookups(from, names));
    NamedLookups(from, names);
    var m := ProjectTo(names)(from).value;
    forall name | name in names ensures name in from && name in m && m[name] == from[name] {
      assert name in Elements(names);
    }
  }

  lemma PicksAre(names: seq<Name>, rows: seq<Row>)
    requires Mapped(ProjectTo(names), rows).Some?
    ensures var out := Mapped(ProjectTo(names), rows).value;
            |out| == |rows| && forall i :: 0 <= i < |rows| ==> IsPick(names, rows[i], out[i])
  {
    MappedAt(ProjectTo(names), rows);
    hide ProjectTo, IsPick;
    forall i | 0 <= i < |rows| ensures IsPick(names, rows[i], Mapped(ProjectTo(names), rows).value[i]) {
      PickIs(names, rows[i]);
    }
  }

  /** The answer of the plan, from the rows that reach the projection: the first of them,
      up to the limit, projected */
  lemma TopOfPlan(summary: Summary, projections: seq<LogicalExpr>, names: seq<Name>, input: LogicalPlan, limit: Option<nat>, rows: seq<Row>)
    requires NamesOf(projections) == Some(names)
    requires var plan := Project(projections, input); Answer(summary, if limit.Some? then Limit(limit.value, plan) else plan, rows).Some?
    ensures Answer(summary, input, rows).Some?
    ensures var plan, below := Project(projections, input), Answer(summary, input, rows).value;
            var out := Answer(summary, if limit.Some? then Limit(limit.value, plan) else plan, rows).value;
            |out| == Least(limit, |below|) && forall i :: 0 <= i < |out| ==> IsPick(names, below[i], out[i])
  {
    var plan := Project(projections, input);
    hide NamesOf, Mapped, IsPick, Named, Lookups;
    assert Answer(summary, plan, rows).Some?;
    var below := Answer(summary, input, rows).value;
    assert Answer(summary, plan, rows) == Mapped(row => Named(names, Lookups(row, names)), below);
    SameProjection(names, below);
    PicksAre(names, below);
  }

  lemma {:induction false} MappedSame<T>(f: Row -> Option<T>, g: Row -> Option<T>, rows: seq<Row>)
    requires forall row :: f(row) == g(row)
    ensures Mapped(f, rows) == Mapped(g, rows)
  {
    if rows != [] { MappedSame(f, g, rows[..|rows| - 1]); }
  }

  lemma SameProjection(names: seq<Name>, rows: seq<Row>)
    ensures Mapped(row => Named(names, Lookups(row, names)), rows) == Mapped(ProjectTo(names), rows)
  {
    hide Named, Lookups;
    MappedSame(row => Named(names, Lookups(row, names)), ProjectTo(names), rows);
  }

  /** A statement without aggregates: its plan answers just what it says. */
  lemma PlanSaysRows(summary: Summary, schema: seq<ColumnSchema>, s: SqlSelect, rows: seq<Row>)
    requires !Aggregates(s) && (s.where.Some? ==> IntegersFit(s.where.value))
    requires Answer(summary, PlanOf(LowerSelect(schema, s)), rows).Some?
    ensures SaysRows(schema, s, rows, Answer(summary, PlanOf(LowerSelect(schema, s)), rows).value)
  {
    var q := LowerSelect(schema, s);
    ItemsAreNamed(schema, s.table, s.items);
    AggregatesAmong(schema, s.table, s.items);
    assert PlanOf(q) == if q.limit.Some? then Limit(q.limit.value, Project(q.items, SourceOf(q))) else Project(q.items, SourceOf(q));
    hide PlanOf, SourceOf, Answer, IsPick, NamesOf, ResultNames, LowerItems, Kept;
    TopOfPlan(summary, q.items, ResultNames(schema, s.items), SourceOf(q), q.limit, rows);
    SourceSays(summary, schema, s, rows);
  }

  // ---- Groups ----

  lemma {:induction false} AllOfLookups(row: Row, names: seq<Name>)
    ensures AllOf(Lookups(row, names)).Some? ==> HasKey(names, row, AllOf(Lookups(row, names)).value)
    ensures (forall j :: 0 <= j < |names| ==> names[j] in row) ==> AllOf(Lookups(row, names)).Some?
  {
    if names != [] {
      var last := |names| - 1;
      AllOfLookups(row, names[..last]);
      assert Lookups(row, names)[..last] == Lookups(row, names[..last]);
    }
  }

  /** A row has one key. */
  lemma KeyIsUnique(names: seq<Name>, row: Row, key: seq<Value>, key': seq<Value>)
    requires HasKey(names, row, key) && HasKey(names, row, key')
    ensures key == key'
  {
  }

  lemma KeysHold(groupBy: seq<Name>, rows: seq<Row>, keys: seq<seq<Value>>)
    requires Mapped(KeysBy(groupBy), rows) == Some(keys)
    ensures |keys| == |rows| && forall i :: 0 <= i < |rows| ==> HasKey(groupBy, rows[i], keys[i])
  {
    MappedAt(KeysBy(groupBy), rows);
    forall i | 0 <= i < |rows| ensures HasKey(groupBy, rows[i], keys[i]) {
      AllOfLookups(rows[i], groupBy);
    }
  }

  /** The arguments of a group are the column's values in the rows with its key. */
  lemma {:induction false} ArgumentsSay(groupBy: seq<Name>, rows: seq<Row>, keys: seq<seq<Value>>, column: Name,
                                        arguments: seq<Value>, key: seq<Value>)
    requires |keys| == |rows| == |arguments|
    requires forall i :: 0 <= i < |rows| ==> HasKey(groupBy, rows[i], keys[i]) && column in rows[i] && rows[i][column] == arguments[i]
    ensures var mine, values := Kept(r => HasKey(groupBy, r, key), rows), ArgumentsOf(keys, arguments, key);
            |values| == |mine| && forall i :: 0 <= i < |mine| ==> column in mine[i] && mine[i][column] == values[i]
  {
    if rows != [] {
      var last := |rows| - 1;
      ArgumentsSay(groupBy, rows[..last], keys[..last], column, arguments[..last], key);
      if HasKey(groupBy, rows[last], key) {
        KeyIsUnique(groupBy, rows[last], keys[last], key);
      }
    }
  }

  lemma SummarizedSays(summary: Summary, groupBy: seq<Name>, spec: AggSpec, rows: seq<Row>, keys: seq<seq<Value>>, key: seq<Value>)
    requires Summarized(summary, spec, rows, keys, key).Some?
    requires |keys| == |rows| && forall i :: 0 <= i < |rows| ==> HasKey(groupBy, rows[i], keys[i])
    ensures IsSummary(summary, spec.func, spec.column, Kept(r => HasKey(groupBy, r, key), rows),
                      Summarized(summary, spec, rows, keys, key).value)
  {
    hide HasKey, Mapped, Kept, ArgumentsOf;
    var arguments := Mapped(row => Lookup(row, spec.column), rows).value;
    MappedAt(row => Lookup(row, spec.column), rows);
    ArgumentsSay(groupBy, rows, keys, spec.column, arguments, key);
  }

  /** A name stands for its last value. */
  lemma {:induction false} NamedSays(names: seq<Name>, values: seq<Option<Value>>, name: Name) returns (i: nat)
    requires |names| == |values| && Named(names, values).Some? && name in names
    ensures i < |names| && names[i] == name && name in Named(names, values).value
    ensures values[i] == Some(Named(names, values).value[name])
    ensures forall j :: i < j < |names| ==> names[j] != name
  {
    var last := |names| - 1;
    if names[last] == name {
      i := last;
    } else {
      i := NamedSays(names[..last], values[..last], name);
    }
  }

  // ---- The row of a group ----

  lemma {:induction false} SpecsAre(es: seq<LogicalExpr>)
    requires SpecsOf(es).Some?
    ensures |SpecsOf(es).value| == |es|
    ensures forall i :: 0 <= i < |es| ==> SpecOf(es[i]) == Some(SpecsOf(es).value[i])
  {
    if es != [] { SpecsAre(es[..|es| - 1]); }
  }

  /** The aggregate is one that the SELECT list asks for. */
  predicate Asks(items: seq<SqlItem>, e: LogicalExpr) {
    exists k :: 0 <= k < |items| && items[k].ItemAggregate? && e == Aggregate(items[k].func, items[k].column)
  }

  lemma AsksAtEnd(items: seq<SqlItem>, e: LogicalExpr)
    requires items != []
    ensures var last := items[|items| - 1];
            Asks(items, e) <==> Asks(items[..|items| - 1], e) || (last.ItemAggregate? && e == Aggregate(last.func, last.column))
  {
    var front := items[..|items| - 1];
    if Asks(front, e) {
      var k :| 0 <= k < |front| && front[k].ItemAggregate? && e == Aggregate(front[k].func, front[k].column);
      assert items[k] == front[k];
    }
    if k :| 0 <= k < |front| && items[k].ItemAggregate? && e == Aggregate(items[k].func, items[k].column) {
      assert items[k] == front[k];
    }
  }

  lemma {:induction false} AggregatesAre(schema: seq<ColumnSchema>, table: Name, items: seq<SqlItem>, e: LogicalExpr)
    ensures e in AggregatesIn(LowerItems(schema, table, items)) <==> Asks(items, e)
  {
    if items != [] {
      var last := |items| - 1;
      var front, item := LowerItems(schema, table, items[..last]), LowerItem(schema, table, items[last]);
      assert LowerItems(schema, table, items) == front + item;
      AggregatesAre(schema, table, items[..last], e);
      KeptOfConcat((e: LogicalExpr) => e.Aggregate?, front, item);
      assert AggregatesIn(front + item) == AggregatesIn(front) + AggregatesIn(item);
      hide *;
      AggregatesInItem(schema, table, items[last]);
      AsksAtEnd(items, e);
    }
  }

  lemma OutputPlace(groupBy: seq<Name>, outputs: seq<Name>, values: seq<Option<Value>>, results: seq<Option<Value>>, k: nat)
    returns (l: nat)
    requires |values| == |groupBy| && |results| == |outputs| && k < |outputs|
    requires Named(groupBy + outputs, values + results).Some?
    ensures l < |outputs| && outputs[l] == outputs[k]
    ensures var m := Named(groupBy + outputs, values + results).value; outputs[k] in m && results[l] == Some(m[outputs[k]])
  {
    var names := groupBy + outputs;
    assert names[|groupBy| + k] == outputs[k];
    var i := NamedSays(names, values + results, outputs[k]);
    l := i - |groupBy|;
  }

  lemma KeyPlace(groupBy: seq<Name>, outputs: seq<Name>, values: seq<Option<Value>>, results: seq<Option<Value>>, j: nat)
    returns (l: nat)
    requires |values| == |groupBy| && |results| == |outputs| && j < |groupBy| && groupBy[j] !in outputs
    requires Named(groupBy + outputs, values + results).Some?
    ensures l < |groupBy| && groupBy[l] == groupBy[j]
    ensures var m := Named(groupBy + outputs, values + results).value; groupBy[j] in m && values[l] == Some(m[groupBy[j]])
  {
    var names := groupBy + outputs;
    assert names[j] == groupBy[j];
    forall i | |groupBy| <= i < |names| ensures names[i] in outputs {
      assert names[i] == outputs[i - |groupBy|];
    }
    l := NamedSays(names, values + results, groupBy[j]);
  }

  /** In a group's row an aggregate's name stands for its summary. */
  lemma GroupRowSummary(summary: Summary, groupBy: seq<Name>, specs: seq<AggSpec>, rows: seq<Row>, keys: seq<seq<Value>>,
                        key: seq<Value>, k: nat)
    requires GroupRow(summary, groupBy, specs, rows, keys, key).Some? && k < |specs| && X.NamedAfter(specs)
    requires |keys| == |rows| && forall i :: 0 <= i < |rows| ==> HasKey(groupBy, rows[i], keys[i])
    ensures var m := GroupRow(summary, groupBy, specs, rows, keys, key).value;
            && specs[k].outputName in m
            && IsSummary(summary, specs[k].func, specs[k].column, Kept(r => HasKey(groupBy, r, key), rows), m[specs[k].outputName])
  {
    hide Named, Summarized, IsSummary, HasKey, OutputName;
    var results := seq(|specs|, i requires 0 <= i < |specs| => Summarized(summary, specs[i], rows, keys, key));
    var l := OutputPlace(groupBy, OutputNames(specs), Somes(key), results, k);
    X.OutputNameSays(specs[k].func, specs[k].column, specs[l].func, specs[l].column);
    SummarizedSays(summary, groupBy, specs[l], rows, keys, key);
  }

  /** A group column's name stands for its value in the group's key. */
  lemma GroupRowKey(summary: Summary, groupBy: seq<Name>, specs: seq<AggSpec>, rows: seq<Row>, keys: seq<seq<Value>>,
                    key: seq<Value>, row: Row, j: nat)
    requires GroupRow(summary, groupBy, specs, rows, keys, key).Some? && HasKey(groupBy, row, key)
    requires j < |groupBy| && groupBy[j] !in OutputNames(specs)
    ensures var m := GroupRow(summary, groupBy, specs, rows, keys, key).value;
            groupBy[j] in m && m[groupBy[j]] == key[j]
  {
    hide Named, Summarized;
    var results := seq(|specs|, i requires 0 <= i < |specs| => Summarized(summary, specs[i], rows, keys, key));
    var l := KeyPlace(groupBy, OutputNames(specs), Somes(key), results, j);
  }

  lemma GroupIsKey(groupBy: seq<Name>, rows: seq<Row>, keys: seq<seq<Value>>, key: seq<Value>) returns (row: Row)
    requires |keys| == |rows| && (forall i :: 0 <= i < |rows| ==> HasKey(groupBy, rows[i], keys[i])) && key in FirstSeen(keys)
    ensures HasKey(groupBy, row, key)
  {
    var i :| 0 <= i < |keys| && keys[i] == key;
    row := rows[i];
  }

  // ---- Statements with aggregates ----

  /** What a group's row holds before it is cut down to the SELECT list */
  ghost predicate HoldsGroup(summary: Summary, items: seq<SqlItem>, groupBy: seq<Name>, rows: seq<Row>, key: seq<Value>, m: Row) {
    HoldsSummaries(summary, items, groupBy, rows, key, m) && HoldsKey(items, groupBy, key, m)
  }

  /** The specs of a statement's aggregates */
  ghost predicate AreSpecs(items: seq<SqlItem>, specs: seq<AggSpec>) {
    && X.NamedAfter(specs)
    && (forall k :: 0 <= k < |items| && items[k].ItemAggregate? ==>
          exists l :: 0 <= l < |specs| && specs[l].func == items[k].func && specs[l].column == items[k].column)
    && (forall l :: 0 <= l < |specs| ==> IsOutput(items, specs[l].outputName))
  }

  lemma SpecsOfItems(schema: seq<ColumnSchema>, table: Name, items: seq<SqlItem>)
    ensures SpecsOf(AggregatesIn(LowerItems(schema, table, items))).Some?
    ensures AreSpecs(items, SpecsOf(AggregatesIn(LowerItems(schema, table, items))).value)
  {
    var lowered := LowerItems(schema, table, items);
    AggregateSpecs(lowered);
    var es, specs := AggregatesIn(lowered), SpecsOf(AggregatesIn(lowered)).value;
    SpecsAre(es);
    forall k | 0 <= k < |items| && items[k].ItemAggregate?
      ensures exists l :: 0 <= l < |specs| && specs[l].func == items[k].func && specs[l].column == items[k].column
    {
      AggregatesAre(schema, table, items, Aggregate(items[k].func, items[k].column));
      assert Asks(items, Aggregate(items[k].func, items[k].column));
      var l :| 0 <= l < |es| && es[l] == Aggregate(items[k].func, items[k].column);
      assert SpecOf(es[l]) == Some(specs[l]);
    }
    forall l | 0 <= l < |specs|
      ensures IsOutput(items, specs[l].outputName) && specs[l].outputName == OutputName(specs[l].func, specs[l].column)
    {
      assert specs[l] in specs && SpecOf(es[l]) == Some(specs[l]) && es[l] in es;
      AggregatesAre(schema, table, items, es[l]);
      var k :| 0 <= k < |items| && items[k].ItemAggregate? && es[l] == Aggregate(items[k].func, items[k].column);
    }
  }

  /** For each aggregate that is asked for */
  ghost predicate HoldsSummaries(summary: Summary, items: seq<SqlItem>, groupBy: seq<Name>, rows: seq<Row>, key: seq<Value>, m: Row) {
    forall k :: 0 <= k < |items| && items[k].ItemAggregate? ==>
      && OutputName(items[k].func, items[k].column) in m
      && IsSummary(summary, items[k].func, items[k].column, Kept(r => HasKey(groupBy, r, key), rows),
                   m[OutputName(items[k].func, items[k].column)])
  }

  ghost predicate HoldsKey(items: seq<SqlItem>, groupBy: seq<Name>, key: seq<Value>, m: Row) {
    forall j :: 0 <= j < |groupBy| && j < |key| && !IsOutput(items, groupBy[j]) ==> groupBy[j] in m && m[groupBy[j]] == key[j]
  }

  lemma SpecOfItem(items: seq<SqlItem>, specs: seq<AggSpec>, k: nat) returns (l: nat)
    requires AreSpecs(items, specs) && k < |items| && items[k].ItemAggregate?
    ensures l < |specs| && specs[l].func == items[k].func && specs[l].column == items[k].column
    ensures X.NamedAfter(specs) && specs[l].outputName == OutputName(items[k].func, items[k].column)
  {
    l :| 0 <= l < |specs| && specs[l].func == items[k].func && specs[l].column == items[k].column;
  }

  lemma GroupRowSummaries(summary: Summary, items: seq<SqlItem>, groupBy: seq<Name>, specs: seq<AggSpec>, rows: seq<Row>,
                          keys: seq<seq<Value>>, key: seq<Value>)
    requires GroupRow(summary, groupBy, specs, rows, keys, key).Some? && AreSpecs(items, specs)
    requires |keys| == |rows| && forall i :: 0 <= i < |rows| ==> HasKey(groupBy, rows[i], keys[i])
    ensures HoldsSummaries(summary, items, groupBy, rows, key, GroupRow(summary, groupBy, specs, rows, keys, key).value)
  {
    var m := GroupRow(summary, groupBy, specs, rows, keys, key).value;
    hide GroupRow, HasKey, IsSummary, Kept, AreSpecs, OutputName, X.NamedAfter;
    forall k | 0 <= k < |items| && items[k].ItemAggregate?
      ensures OutputName(items[k].func, items[k].column) in m
      ensures IsSummary(summary, items[k].func, items[k].column, Kept(r => HasKey(groupBy, r, key), rows),
                        m[OutputName(items[k].func, items[k].column)])
    {
      var l := SpecOfItem(items, specs, k);
      GroupRowSummary(summary, groupBy, specs, rows, keys, key, l);
    }
  }

  lemma GroupRowKeys(summary: Summary, items: seq<SqlItem>, groupBy: seq<Name>, specs: seq<AggSpec>, rows: seq<Row>,
                     keys: seq<seq<Value>>, key: seq<Value>)
    requires GroupRow(summary, groupBy, specs, rows, keys, key).Some? && AreSpecs(items, specs)
    requires |keys| == |rows| && forall i :: 0 <= i < |rows| ==> HasKey(groupBy, rows[i], keys[i])
    requires groupBy == [] || key in FirstSeen(keys)
    ensures HoldsKey(items, groupBy, key, GroupRow(summary, groupBy, specs, rows, keys, key).value)
  {
    var m := GroupRow(summary, groupBy, specs, rows, keys, key).value;
    hide GroupRow, HasKey, FirstSeen, AreSpecs, IsOutput;
    forall j | 0 <= j < |groupBy| && j < |key| && !IsOutput(items, groupBy[j]) ensures groupBy[j] in m && m[groupBy[j]] == key[j] {
      NotAnOutput(items, specs, groupBy[j]);
      var row := GroupIsKey(groupBy, rows, keys, key);
      GroupRowKey(summary, groupBy, specs, rows, keys, key, row, j);
    }
  }

  lemma GroupRowHolds(summary: Summary, items: seq<SqlItem>, groupBy: seq<Name>, specs: seq<AggSpec>, rows: seq<Row>,
                      keys: seq<seq<Value>>, key: seq<Value>)
    requires GroupRow(summary, groupBy, specs, rows, keys, key).Some? && AreSpecs(items, specs)
    requires |keys| == |rows| && forall i :: 0 <= i < |rows| ==> HasKey(groupBy, rows[i], keys[i])
    requires groupBy == [] || key in FirstSeen(keys)
    ensures HoldsGroup(summary, items, groupBy, rows, key, GroupRow(summary, groupBy, specs, rows, keys, key).value)
  {
    GroupRowSummaries(summary, items, groupBy, specs, rows, keys, key);
    GroupRowKeys(summary, items, groupBy, specs, rows, keys, key);
    hide HoldsSummaries, HoldsKey, GroupRow, AreSpecs, HasKey, FirstSeen;
  }

  lemma NotAnOutput(items: seq<SqlItem>, specs: seq<AggSpec>, name: Name)
    requires AreSpecs(items, specs) && !IsOutput(items, name)
    ensures name !in OutputNames(specs)
  {
  }

  /** The grouping: a row per group, which holds what the group says */
  lemma GroupedSays(summary: Summary, items: seq<SqlItem>, groupBy: seq<Name>, specs: seq<AggSpec>, rows: seq<Row>)
    returns (groups: seq<seq<Value>>)
    requires Grouped(summary, groupBy, specs, rows).Some? && AreSpecs(items, specs)
    ensures AreGroups(groupBy, rows, groups) && |groups| == |Grouped(summary, groupBy, specs, rows).value|
    ensures forall i :: 0 <= i < |groups| ==>
              HoldsGroup(summary, items, groupBy, rows, groups[i], Grouped(summary, groupBy, specs, rows).value[i])
  {
    GroupedHasKeys(summary, groupBy, specs, rows);
    var keys := Mapped(KeysBy(groupBy), rows).value;
    GroupedBy(summary, groupBy, specs, rows, keys);
    KeysHold(groupBy, rows, keys);
    groups := GroupsIn(groupBy, keys);
    var gs := Grouped(summary, groupBy, specs, rows).value;
    GroupRowsAt(summary, groupBy, specs, rows, keys, groups);
    hide Grouped, GroupRows, GroupRow, HasKey, HoldsGroup, AreSpecs, FirstSeen;
    forall i | 0 <= i < |groups| ensures HoldsGroup(summary, items, groupBy, rows, groups[i], gs[i]) {
      GroupRowHolds(summary, items, groupBy, specs, rows, keys, groups[i]);
    }
  }

  lemma GroupedBy(summary: Summary, groupBy: seq<Name>, specs: seq<AggSpec>, rows: seq<Row>, keys: seq<seq<Value>>)
    requires Mapped(KeysBy(groupBy), rows) == Some(keys)
    ensures Grouped(summary, groupBy, specs, rows) == GroupRows(summary, groupBy, specs, rows, keys, GroupsIn(groupBy, keys))
  {
    MappedSame(row => AllOf(Lookups(row, groupBy)), KeysBy(groupBy), rows);
  }

  lemma GroupPick(summary: Summary, schema: seq<ColumnSchema>, s: SqlSelect, rows: seq<Row>, key: seq<Value>, m: Row, row: Row)
    requires HoldsGroup(summary, s.items, s.groupBy, rows, key, m) && IsPick(ResultNames(schema, s.items), m, row)
    ensures IsGroupRow(summary, schema, s, rows, key, row)
  {
    hide IsSummary, Kept;
    forall k | 0 <= k < |s.items| && s.items[k].ItemAggregate?
      ensures OutputName(s.items[k].func, s.items[k].column) in ResultNames(schema, s.items)
    {
      ItemIsNamed(schema, s.items, k);
    }
  }

  lemma {:induction false} ItemIsNamed(schema: seq<ColumnSchema>, items: seq<SqlItem>, k: nat)
    requires k < |items| && items[k].ItemAggregate?
    ensures OutputName(items[k].func, items[k].column) in ResultNames(schema, items)
  {
    if k < |items| - 1 { ItemIsNamed(schema, items[..|items| - 1], k); }
  }

  function AggregationOf(q: SelectQuery): LogicalPlan {
    Aggregation(q.groupBy, AggregatesIn(q.items), SourceOf(q))
  }

  lemma PlanIs(schema: seq<ColumnSchema>, s: SqlSelect)
    requires Aggregates(s)
    ensures var q := LowerSelect(schema, s);
            var projected := Project(q.items, AggregationOf(q));
            PlanOf(q) == if q.limit.Some? then Limit(q.limit.value, projected) else projected
  {
    AggregatesAmong(schema, s.table, s.items);
    assert |Columns(s.table, s.groupBy)| == |s.groupBy|;
  }

  /** The aggregation groups the rows that are chosen. */
  lemma AggregationSays(summary: Summary, schema: seq<ColumnSchema>, s: SqlSelect, rows: seq<Row>)
    requires s.where.Some? ==> IntegersFit(s.where.value)
    requires Answer(summary, AggregationOf(LowerSelect(schema, s)), rows).Some?
    ensures var specs := SpecsOf(AggregatesIn(LowerSelect(schema, s).items));
            && specs.Some? && AreSpecs(s.items, specs.value)
            && Answer(summary, AggregationOf(LowerSelect(schema, s)), rows)
            == Grouped(summary, s.groupBy, specs.value, Kept(ChosenBy(s.where), rows))
  {
    SpecsOfItems(schema, s.table, s.items);
    ColumnsAreNamed(s.table, s.groupBy);
    hide SourceOf, LowerItems, Kept, Grouped, SpecsOf, AggregatesIn, AreSpecs, NamesOf, AllColumns, ChosenBy;
    SourceSays(summary, schema, s, rows);
  }

  lemma GroupsArePicked(summary: Summary, schema: seq<ColumnSchema>, s: SqlSelect, rows: seq<Row>, groups: seq<seq<Value>>,
                        gs: seq<Row>, out: seq<Row>)
    requires |groups| == |gs| && forall i :: 0 <= i < |gs| ==> HoldsGroup(summary, s.items, s.groupBy, rows, groups[i], gs[i])
    requires |out| == Least(s.limit, |gs|) && forall i :: 0 <= i < |out| ==> IsPick(ResultNames(schema, s.items), gs[i], out[i])
    ensures forall i :: 0 <= i < |out| ==> IsGroupRow(summary, schema, s, rows, groups[i], out[i])
  {
    hide HoldsGroup, IsPick, IsGroupRow;
    forall i | 0 <= i < |out| ensures IsGroupRow(summary, schema, s, rows, groups[i], out[i]) {
      GroupPick(summary, schema, s, rows, groups[i], gs[i], out[i]);
    }
  }

  /** A statement with aggregates or GROUP BY: its plan answers just what it says. */
  lemma PlanSaysGroups(summary: Summary, schema: seq<ColumnSchema>, s: SqlSelect, rows: seq<Row>)
    requires Aggregates(s) && (s.where.Some? ==> IntegersFit(s.where.value))
    requires Answer(summary, PlanOf(LowerSelect(schema, s)), rows).Some?
    ensures SaysGroups(summary, schema, s, rows, Answer(summary, PlanOf(LowerSelect(schema, s)), rows).value)
  {
    var q, chosen := LowerSelect(schema, s), Kept(ChosenBy(s.where), rows);
    PlanIs(schema, s);
    ItemsAreNamed(schema, s.table, s.items);
    assert q.items == LowerItems(schema, s.table, s.items) && q.limit == s.limit;
    hide *;
    TopOfPlan(summary, q.items, ResultNames(schema, s.items), AggregationOf(q), q.limit, rows);
    AggregationSays(summary, schema, s, rows);
    var gs, out := Answer(summary, AggregationOf(q), rows).value, Answer(summary, PlanOf(q), rows).value;
    var groups := GroupedSays(summary, s.items, s.groupBy, SpecsOf(AggregatesIn(q.items)).value, chosen);
    GroupsArePicked(summary, schema, s, chosen, groups, gs, out);
    SaysGroupsOf(summary, schema, s, rows, out, groups);
  }

  lemma SaysGroupsOf(summary: Summary, schema: seq<ColumnSchema>, s: SqlSelect, rows: seq<Row>, out: seq<Row>, groups: seq<seq<Value>>)
    requires var chosen := Kept(ChosenBy(s.where), rows);
             AreGroups(s.groupBy, chosen, groups) && |out| == Least(s.limit, |groups|)
             && forall i :: 0 <= i < |out| ==> IsGroupRow(summary, schema, s, chosen, groups[i], out[i])
    ensures SaysGroups(summary, schema, s, rows, out)
  {
    hide AreGroups, IsGroupRow, Kept;
  }

  // ---- Statements that are accepted ----

  /** What validator and analyzer check of a statement */
  predicate AcceptedSelect(schema: seq<ColumnSchema>, s: SqlSelect) {
    && (forall j :: 0 <= j < |s.groupBy| ==> TypeOf(schema, s.groupBy[j]).Some?)
    && (forall k :: 0 <= k < |s.items| ==>
          match s.items[k]
          case Star => true
          case ItemColumn(name) => TypeOf(schema, name).Some?
          case ItemAggregate(_, column) => TypeOf(schema, column).Some?)
    && (s.where.Some? ==> Accepted(schema, s.where.value))
  }

  /** Beyond the frontend's checks: no floats, and no literal that slips through */
  predicate Safe(schema: seq<ColumnSchema>, s: SqlSelect) {
    s.where.Some? ==> Floatless(schema, s.where.value) && NoneSlips(schema, s.where.value)
  }

  /** What the frontend accepts becomes a query of which everything else is proved. */
  lemma AcceptedIsQuery(schema: seq<ColumnSchema>, s: SqlSelect)
    requires AcceptedSelect(schema, s) && Safe(schema, s)
    ensures Accepts(schema, LowerSelect(schema, s)) && IsAggregating(LowerSelect(schema, s)) == Aggregates(s)
    ensures s.where.Some? ==> IntegersFit(s.where.value)
  {
    ColumnsAreNamed(s.table, s.groupBy);
    ItemsAreNamed(schema, s.table, s.items);
    AggregatesAmong(schema, s.table, s.items);
    assert |Columns(s.table, s.groupBy)| == |s.groupBy|;
    if s.where.Some? {
      AcceptedIsChecked(schema, s.table, s.where.value);
      NoneSlipsFits(schema, s.where.value);
    }
  }
}
