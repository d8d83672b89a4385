/** From a SELECT statement to what arrives: the scan that is built for it exists, and on
    every schedule the result is what the statement says of everything inserted. */
module StatementAnswers {
  import opened Wrappers
  import opened Sequences
  import opened Catalog
  import opened Expressions
  import opened LogicalPlans
  import opened Lowering
  import opened TableWriter
  import opened Scans
  import opened Runtime
  import opened Clauses
  import opened Filtering
  import opened Queries
  import opened GroupedTotals
  import opened EndToEnd
  import opened QueryAnswers
  import opened Statements
  import X = Exchange
  import G = Gather

  // ---- The scan that is built ----

  /** The columns of the table with these names, in the table's order */
  lemma ColumnsArePicked(schema: seq<ColumnSchema>, names: set<Name>) returns (columns: seq<ColumnSchema>, picks: seq<nat>)
    requires DistinctNames(schema) && names <= NameSet(schema)
    ensures Picks(schema, columns, picks) && DistinctNames(columns) && NameSet(columns) == names
  {
    var wanted := (c: ColumnSchema) => c.name in names;
    columns := Kept(wanted, schema);
    picks := KeptMeans(wanted, schema);
    forall i, j | 0 <= i < j < |columns| ensures columns[i].name != columns[j].name {
      assert picks[i] < picks[j];
    }
    forall name | name in names ensures name in NameSet(columns) {
      var k :| 0 <= k < |schema| && schema[k].name == name;
      assert wanted(schema[k]);
      var i :| 0 <= i < |picks| && picks[i] == k;
      assert columns[i].name == name;
    }
  }

  lemma {:induction false} PickedTypes(schema: seq<ColumnSchema>, columns: seq<ColumnSchema>, picks: seq<nat>)
    requires Picks(schema, columns, picks) && DistinctNames(columns) && DistinctNames(schema)
    ensures AgreeOn(columns, schema, NameSet(columns))
  {
    forall name | name in NameSet(columns) ensures TypeOf(columns, name) == TypeOf(schema, name) {
      var c :| 0 <= c < |columns| && columns[c].name == name;
      ColumnIs(columns, c);
      ColumnIs(schema, picks[c]);
    }
  }

  /** What a condition comes to depends on the types of its own columns. */
  lemma {:induction false} OutcomeSame(columns: seq<ColumnSchema>, schema: seq<ColumnSchema>, round: Rounding, e: LogicalExpr)
    requires AgreeOn(columns, schema, ExprColumns(e)) && LowerExpr(round, e).Some? && ReadsColumns(e)
    ensures OutcomeOf(columns, LowerExpr(round, e).value) == OutcomeOf(schema, LowerExpr(round, e).value)
    ensures OperandType(columns, LowerExpr(round, e).value) == OperandType(schema, LowerExpr(round, e).value)
  {
    match e
    case Column(_, name) => assert name in ExprColumns(e);
    case Binary(left, _, right) =>
      assert AgreeOn(columns, schema, ExprColumns(left)) && AgreeOn(columns, schema, ExprColumns(right));
      OutcomeSame(columns, schema, round, left);
      OutcomeSame(columns, schema, round, right);
    case _ =>
  }

  lemma {:induction false} CoercedColumns(schema: seq<ColumnSchema>, e: LogicalExpr)
    requires ReadsColumns(e)
    ensures ExprColumns(Coerce(schema, e)) == ExprColumns(e) && ReadsColumns(Coerce(schema, e))
  {
    match e
    case Binary(left, _, right) =>
      CoercedColumns(schema, left);
      CoercedColumns(schema, right);
    case Cast(e', _) => CoercedColumns(schema, e');
    case _ =>
  }

  lemma {:induction false} FoldedColumns(e: LogicalExpr)
    requires ReadsColumns(e)
    ensures ExprColumns(Fold(e)) <= ExprColumns(e) && ReadsColumns(Fold(e))
  {
    if e.Binary? {
      FoldedColumns(e.left);
      FoldedColumns(e.right);
      FoldBinaryColumns(Fold(e.left), e.op, Fold(e.right));
    }
  }

  lemma FoldBinaryColumns(left: LogicalExpr, op: BinaryOp, right: LogicalExpr)
    requires ReadsColumns(left) && ReadsColumns(right)
    ensures ExprColumns(FoldBinary(left, op, right)) <= ExprColumns(left) + ExprColumns(right)
    ensures ReadsColumns(FoldBinary(left, op, right))
  {
  }

  lemma {:induction false} ClauseColumns(schema: seq<ColumnSchema>, table: Name, e: SqlExpr)
    requires Accepted(schema, e)
    ensures ExprColumns(LowerSql(table, e)) <= NameSet(schema) && ReadsColumns(LowerSql(table, e))
  {
    match e
    case SqlColumn(name) => TypedIsNamed(schema, name);
    case SqlBinary(left, _, right) =>
      ClauseColumns(schema, table, left);
      ClauseColumns(schema, table, right);
    case _ =>
  }

  lemma TypedIsNamed(schema: seq<ColumnSchema>, name: Name)
    requires TypeOf(schema, name).Some?
    ensures name in NameSet(schema)
  {
    assert schema[IndexOf(schema, name).value].name == name;
  }

  lemma {:induction false} ColumnsOfConcat(a: seq<LogicalExpr>, b: seq<LogicalExpr>)
    ensures ColumnsOf(a + b) == ColumnsOf(a) + ColumnsOf(b)
  {
    if b == [] {
      assert a + b == a;
    } else {
      var front := b[..|b| - 1];
      ColumnsOfConcat(a, front);
      assert (a + b)[..|a + b| - 1] == a + front;
    }
  }

  lemma {:induction false} NamedColumns(table: Name, names: seq<Name>)
    ensures ColumnsOf(Columns(table, names)) == Elements(names)
  {
    if names != [] {
      var last := |names| - 1;
      NamedColumns(table, names[..last]);
      assert Columns(table, names)[..last] == Columns(table, names[..last]);
      assert names == names[..last] + [names[last]];
    }
  }

  lemma {:induction false} ItemColumns(schema: seq<ColumnSchema>, s: SqlSelect, n: nat)
    requires AcceptedSelect(schema, s) && n <= |s.items|
    ensures ColumnsOf(LowerItems(schema, s.table, s.items[..n])) <= NameSet(schema)
  {
    if n > 0 {
      var item := s.items[n - 1];
      ItemColumns(schema, s, n - 1);
      assert s.items[..n][..n - 1] == s.items[..n - 1];
      ColumnsOfConcat(LowerItems(schema, s.table, s.items[..n - 1]), LowerItem(schema, s.table, item));
      OneItemColumns(schema, s.table, item);
    }
  }

  lemma OneItemColumns(schema: seq<ColumnSchema>, table: Name, item: SqlItem)
    requires item.ItemColumn? ==> TypeOf(schema, item.name).Some?
    requires item.ItemAggregate? ==> TypeOf(schema, item.column).Some?
    ensures ColumnsOf(LowerItem(schema, table, item)) <= NameSet(schema)
  {
    match item
    case Star =>
      NamedColumns(table, SchemaNames(schema));
      forall name | name in Elements(SchemaNames(schema)) ensures name in NameSet(schema) {
        var i :| 0 <= i < |schema| && SchemaNames(schema)[i] == name;
      }
    case ItemColumn(name) =>
      TypedIsNamed(schema, name);
      NamedColumns(table, [name]);
      assert Columns(table, [name]) == [Column(table, name)];
    case ItemAggregate(f, column) =>
      TypedIsNamed(schema, column);
      var es := [Aggregate(f, column)];
      assert es[..0] == [];
  }

  lemma {:induction false} AggregateColumns(es: seq<LogicalExpr>)
    ensures ColumnsOf(AggregatesIn(es)) <= ColumnsOf(es)
  {
    if es != [] {
      var front, last := es[..|es| - 1], es[|es| - 1];
      AggregateColumns(front);
      if last.Aggregate? {
        assert AggregatesIn(es) == AggregatesIn(front) + [last];
        assert (AggregatesIn(front) + [last])[..|AggregatesIn(front)|] == AggregatesIn(front);
      } else {
        assert AggregatesIn(front) + [] == AggregatesIn(front);
      }
    }
  }

  lemma FilterColumns(schema: seq<ColumnSchema>, s: SqlSelect)
    requires s.where.Some? ==> Accepted(schema, s.where.value)
    ensures FilterLeft(schema, LowerSelect(schema, s)).Some? ==>
              var left := FilterLeft(schema, LowerSelect(schema, s)).value; ReadsColumns(left) && ExprColumns(left) <= NameSet(schema)
  {
    if s.where.Some? {
      var clause := LowerSql(s.table, s.where.value);
      ClauseColumns(schema, s.table, s.where.value);
      CoercedColumns(schema, clause);
      FoldedColumns(Coerce(schema, clause));
      hide LowerSql, LowerItems, Coerce, Fold, ReadsColumns, ExprColumns, NameSet;
    }
  }

  lemma ListedColumns(schema: seq<ColumnSchema>, s: SqlSelect)
    requires AcceptedSelect(schema, s)
    ensures var q := LowerSelect(schema, s); ColumnsOf(q.items) + ColumnsOf(q.groupBy) + ColumnsOf(AggregatesIn(q.items)) <= NameSet(schema)
  {
    var q := LowerSelect(schema, s);
    forall name | name in Elements(s.groupBy) ensures name in NameSet(schema) {
      TypedIsNamed(schema, name);
    }
    assert q.items == LowerItems(schema, s.table, s.items) && q.groupBy == Columns(s.table, s.groupBy);
    hide *;
    Whole(s.items);
    ItemColumns(schema, s, |s.items|);
    AggregateColumns(q.items);
    NamedColumns(s.table, s.groupBy);
  }

  /** The columns that a query's plan mentions */
  lemma CollectedAre(schema: seq<ColumnSchema>, q: SelectQuery)
    ensures ScannedColumns(schema, q) <= ColumnsOf(q.items) + ColumnsOf(q.groupBy) + ColumnsOf(AggregatesIn(q.items))
                                         + if FilterLeft(schema, q).Some? then ExprColumns(FilterLeft(schema, q).value) else {}
    ensures ColumnsOf(q.items) <= ScannedColumns(schema, q)
    ensures FilterLeft(schema, q).Some? ==> ExprColumns(FilterLeft(schema, q).value) <= ScannedColumns(schema, q)
  {
    hide ColumnsOf, ExprColumns, AggregatesIn, FilterLeft, IsAggregating;
    var scan := Scan(q.table);
    var source := if FilterLeft(schema, q).Some? then Filter(FilterLeft(schema, q).value, scan) else scan;
    var condition := if FilterLeft(schema, q).Some? then ExprColumns(FilterLeft(schema, q).value) else {};
    assert Collected(scan) == {} && Collected(source) == condition;
    assert Collected(Aggregation(q.groupBy, AggregatesIn(q.items), source))
        == ColumnsOf(q.groupBy) + ColumnsOf(AggregatesIn(q.items)) + condition;
  }

  lemma StatementColumns(schema: seq<ColumnSchema>, s: SqlSelect)
    requires AcceptedSelect(schema, s)
    ensures ScannedColumns(schema, LowerSelect(schema, s)) <= NameSet(schema)
    ensures FilterLeft(schema, LowerSelect(schema, s)).Some? ==>
              var left := FilterLeft(schema, LowerSelect(schema, s)).value;
              ReadsColumns(left) && ExprColumns(left) <= ScannedColumns(schema, LowerSelect(schema, s))
  {
    assert s.where.Some? ==> Accepted(schema, s.where.value);
    FilterColumns(schema, s);
    ListedColumns(schema, s);
    var q := LowerSelect(schema, s);
    hide *;
    CollectedAre(schema, q);
  }

  /** The clause, if there is one, folds to true or runs with a verdict per row. */
  predicate ClauseRunsIn(schema: seq<ColumnSchema>, s: SqlSelect) {
    s.where.Some? ==>
      var clause := LowerSql(s.table, s.where.value);
      Where(schema, clause) && FormOf(schema, clause) in {LiteralForm(BoolLit(true)), PredicateForm(PerRow)}
  }

  lemma FilterIsGood(schema: seq<ColumnSchema>, columns: seq<ColumnSchema>, round: Rounding, s: SqlSelect)
    requires ClauseRunsIn(schema, s) && DistinctNames(columns) && FilterLeft(schema, LowerSelect(schema, s)).Some?
    requires var left := FilterLeft(schema, LowerSelect(schema, s)).value;
             ReadsColumns(left) && AgreeOn(columns, schema, ExprColumns(left))
    ensures PreparedFilter(schema, round, LowerSelect(schema, s)).Some?
    ensures GoodCondition(columns, PreparedFilter(schema, round, LowerSelect(schema, s)).value)
  {
    var clause := LowerSql(s.table, s.where.value);
    var left := FilterLeft(schema, LowerSelect(schema, s)).value;
    assert left == Folded(schema, clause) && left != Lit(BoolLit(true));
    FoldedIsOfForm(schema, schema, round, clause);
    hide LowerSql, Folded, FormOf, Where, ReadsColumns, AgreeOn;
    OutcomeSame(columns, schema, round, left);
  }

  /** Every accepted statement whose clause runs has a scan to run on. */
  lemma ScanIsThere(t: Table, round: Rounding, s: SqlSelect) returns (scan: TableScan)
    requires t.Valid() && AcceptedSelect(t.schema, s) && ClauseRunsIn(t.schema, s)
    requires ScannedColumns(t.schema, LowerSelect(t.schema, s)) != {}
    ensures ScanFor(t, round, LowerSelect(t.schema, s), scan)
  {
    var q := LowerSelect(t.schema, s);
    var names := ScannedColumns(t.schema, q);
    StatementColumns(t.schema, s);
    assert DistinctNames(t.schema);
    var columns, picks := ColumnsArePicked(t.schema, names);
    PickedTypes(t.schema, columns, picks);
    assert columns != [] by { NoNames(columns); }
    if FilterLeft(t.schema, q).Some? {
      AgreeOnFewer(columns, t.schema, names, ExprColumns(FilterLeft(t.schema, q).value));
      FilterIsGood(t.schema, columns, round, s);
    }
    scan := TableScan(columns, picks, PreparedFilter(t.schema, round, q), true);
    hide Table.Valid, GoodCondition, FilterLeft, ScannedColumns, LowerSelect, NameSet, Picks, DistinctNames;
  }

  lemma NoNames(columns: seq<ColumnSchema>)
    ensures columns == [] ==> NameSet(columns) == {}
  {
  }

  lemma AgreeOnFewer(columns: seq<ColumnSchema>, schema: seq<ColumnSchema>, names: set<Name>, fewer: set<Name>)
    requires AgreeOn(columns, schema, names) && fewer <= names
    ensures AgreeOn(columns, schema, fewer)
  {
  }

  // ---- From the statement to what arrives ----

  /** A statement without aggregates or LIMIT: on every schedule what the receiver has at
      the end is, in some order, what the statement says of everything inserted. */
  lemma EveryScheduleDeliversWhatIsSaid(t: Table, round: Rounding, s: SqlSelect, scan: TableScan, summary: Summary,
                                        states: seq<G.State<Row>>, steps: seq<G.Step>) returns (out: seq<Row>)
    requires AcceptedSelect(t.schema, s) && Safe(t.schema, s) && !Aggregates(s) && s.limit.None?
    requires ScanFor(t, round, LowerSelect(t.schema, s), scan)
    requires Answer(summary, PlanOf(LowerSelect(t.schema, s)), t.Rows()).Some?
    requires var p := Pipeline(t, scan, false); G.IsRun(p, states, steps) && G.Initial(p, states[0])
    requires G.EndOfStream(states[|steps|])
    ensures SaysRows(t.schema, s, t.Rows(), out)
    ensures multiset(Projected(ProjectTo(ResultNames(t.schema, s.items)), Concat(G.MessageRows(states[|steps|].delivered))))
         == multiset(Projected(row => Some(row), out))
  {
    var q := LowerSelect(t.schema, s);
    AcceptedIsQuery(t.schema, s);
    ItemsAreNamed(t.schema, s.table, s.items);
    assert q.items == LowerItems(t.schema, s.table, s.items) && q.limit.None?;
    assert t.Valid() by { assert scan.Fits(t); }
    hide *;
    PlanSaysRows(summary, t.schema, s, t.Rows());
    EveryScheduleDeliversAsWritten(t, round, q, scan, summary, states, steps);
    out := Answer(summary, PlanOf(q), t.Rows()).value;
  }

  /** A statement with aggregates or GROUP BY and without LIMIT, whose SELECT list the merge
      can read: on every schedule the merged rows are, in some order, what the statement
      says of everything inserted, with the totals that `SummaryMeans` describes. */
  lemma EveryScheduleMergesWhatIsSaid(t: Table, round: Rounding, s: SqlSelect, scan: TableScan, quotient: Quotient,
                                      states: seq<G.State<Row>>, steps: seq<G.Step>) returns (out: seq<Row>)
    requires AcceptedSelect(t.schema, s) && Safe(t.schema, s) && Aggregates(s) && s.limit.None?
    requires ScanFor(t, round, LowerSelect(t.schema, s), scan)
    requires Answer(TotalsSummary(t.schema, quotient), PlanOf(LowerSelect(t.schema, s)), t.Rows()).Some?
    requires var p := Pipeline(t, scan, true); G.IsRun(p, states, steps) && G.Initial(p, states[0])
    requires G.EndOfStream(states[|steps|])
    ensures SaysGroups(TotalsSummary(t.schema, quotient), t.schema, s, t.Rows(), out)
    ensures var specs := SpecsOf(AggregatesIn(LowerSelect(t.schema, s).items));
            && specs.Some?
            && (X.SelectListFits(s.groupBy, OutputNames(specs.value), ResultNames(t.schema, s.items)) ==>
                  multiset(Merged(t.schema, quotient, s.groupBy, specs.value, G.MessageRows(states[|steps|].delivered)))
                  == multiset(Projected(row => Some(row), out)))
  {
    var q := LowerSelect(t.schema, s);
    AcceptedIsQuery(t.schema, s);
    ItemsAreNamed(t.schema, s.table, s.items);
    ColumnsAreNamed(s.table, s.groupBy);
    assert q.items == LowerItems(t.schema, s.table, s.items) && q.limit.None? && q.groupBy == Columns(s.table, s.groupBy);
    assert t.Valid() by { assert scan.Fits(t); }
    hide *;
    PlanSaysGroups(TotalsSummary(t.schema, quotient), t.schema, s, t.Rows());
    EveryScheduleAnswersAsWritten(t, round, q, scan, quotient, states, steps);
    out := Answer(TotalsSummary(t.schema, quotient), PlanOf(q), t.Rows()).value;
  }
}
