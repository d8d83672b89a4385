/** The plans that the frontend makes of SELECT statements, and what becomes of them: a
    scan, perhaps under a filter, perhaps aggregated, under the projection of the SELECT
    list. */
module Queries {
  import opened Wrappers
  import opened Sequences
  import opened Catalog
  import opened Expressions
  import opened LogicalPlans
  import opened Lowering
  import opened QueryMeaning
  import opened Runtime
  import P = PhysicalPlans

  /** A SELECT statement; `SELECT *` is the list of all columns. */
  datatype SelectQuery = SelectQuery(table: Name, condition: Option<LogicalExpr>, groupBy: seq<LogicalExpr>, items: seq<LogicalExpr>,
                                     limit: Option<nat>)

  /** `collect_aggregates` */
  function AggregatesIn(items: seq<LogicalExpr>): seq<LogicalExpr> {
    Kept((e: LogicalExpr) => e.Aggregate?, items)
  }

  predicate IsAggregating(q: SelectQuery) {
    q.groupBy != [] || AggregatesIn(q.items) != []
  }

  /** `lower_query` */
  function PlanOf(q: SelectQuery): LogicalPlan {
    var scan := Scan(q.table);
    var source := if q.condition.Some? then Filter(q.condition.value, scan) else scan;
    var rows := if IsAggregating(q) then Aggregation(q.groupBy, AggregatesIn(q.items), source) else source;
    var projected := Project(q.items, rows);
    if q.limit.Some? then Limit(q.limit.value, projected) else projected
  }

  /** What validator and analyzer see to: columns to group by, columns and aggregates to
      select, and a condition that is checked and holds no aggregate */
  predicate Accepts(schema: seq<ColumnSchema>, q: SelectQuery) {
    && AllColumns(q.groupBy)
    && (forall i :: 0 <= i < |q.items| ==> q.items[i].Column? || q.items[i].Aggregate?)
    && (q.condition.Some? ==> Checked(schema, q.condition.value) && ReadsColumns(q.condition.value))
  }

  lemma {:induction false} NoAggregatesIn(items: seq<LogicalExpr>)
    requires AggregatesIn(items) == [] && forall i :: 0 <= i < |items| ==> items[i].Column? || items[i].Aggregate?
    ensures AllReadColumns(items)
  {
    if items != [] {
      NoAggregatesIn(items[..|items| - 1]);
    }
  }

  /** The plan of an accepted query meets what its meaning is proved from. */
  lemma PlanIsGood(schema: seq<ColumnSchema>, q: SelectQuery)
    requires Accepts(schema, q)
    ensures FiltersAre(e => Checked(schema, e), PlanOf(q)) && AggregatesAbove(PlanOf(q)) && Reshaped(PlanOf(q))
  {
    var scan := Scan(q.table);
    var source := if q.condition.Some? then Filter(q.condition.value, scan) else scan;
    assert FiltersAre(e => Checked(schema, e), source) && AggregatesAbove(source);
    var rows := if IsAggregating(q) then Aggregation(q.groupBy, AggregatesIn(q.items), source) else source;
    assert FiltersAre(e => Checked(schema, e), rows) && AggregatesAbove(rows);
    if !IsAggregating(q) { NoAggregatesIn(q.items); }
    var projected := Project(q.items, rows);
    assert FiltersAre(e => Checked(schema, e), projected) && AggregatesAbove(projected) && Reshaped(projected);
  }

  lemma {:induction false} ItemNames(items: seq<LogicalExpr>)
    requires forall i :: 0 <= i < |items| ==> items[i].Column? || items[i].Aggregate?
    ensures NamesOf(items).Some? && |NamesOf(items).value| == |items|
    ensures forall i :: 0 <= i < |items| ==> NameOf(items[i]) == Some(NamesOf(items).value[i])
  {
    if items != [] { ItemNames(items[..|items| - 1]); }
  }

  /** The aggregates of the SELECT list, under the names they are selected by */
  lemma {:induction false} AggregateSpecs(items: seq<LogicalExpr>)
    ensures SpecsOf(AggregatesIn(items)).Some?
    ensures forall spec :: spec in SpecsOf(AggregatesIn(items)).value ==> spec.outputName == OutputName(spec.func, spec.column)
  {
    if items != [] {
      AggregateSpecs(items[..|items| - 1]);
      var before, last := AggregatesIn(items[..|items| - 1]), items[|items| - 1];
      if last.Aggregate? {
        assert (before + [last])[..|before|] == before;
      } else {
        assert before + [] == before;
      }
    }
  }

  // ---- The prepared plan ----

  /** The filter that the optimizer leaves */
  function FilterLeft(schema: seq<ColumnSchema>, q: SelectQuery): Option<LogicalExpr> {
    if q.condition.None? || Folded(schema, q.condition.value) == Lit(BoolLit(true)) then None
    else Some(Folded(schema, q.condition.value))
  }

  /** The plan after the logical rules */
  function OptimizedPlan(schema: seq<ColumnSchema>, q: SelectQuery): LogicalPlan {
    var scan := Scan(q.table);
    var source := if FilterLeft(schema, q).Some? then Filter(FilterLeft(schema, q).value, scan) else scan;
    Project(q.items, if IsAggregating(q) then Aggregation(q.groupBy, AggregatesIn(q.items), source) else source)
  }

  /** The columns that the scan reads */
  function ScannedColumns(schema: seq<ColumnSchema>, q: SelectQuery): set<Name> {
    Collected(OptimizedPlan(schema, q))
  }

  /** What is under the projection and the aggregation at run time: the scan, or the
      filter over a scan that skips parts by its condition */
  function SourcePlan(table: Name, condition: Option<PhysicalExpr>, columns: set<Name>): P.PhysicalPlan {
    match condition
    case None => P.FullScan(table, columns)
    case Some(c) => P.FilterRows(c, P.ZoneMapScan(table, columns, c))
  }

  /** The physical plan of the query over its source */
  function TopPlan(items: seq<PhysicalExpr>, aggregating: bool, groupBy: seq<PhysicalExpr>, specs: seq<AggSpec>,
                   source: P.PhysicalPlan): P.PhysicalPlan {
    P.ProjectRows(items, if aggregating then P.AggregateRows(groupBy, specs, source) else source)
  }

  lemma SourceIsOptimized(schema: seq<ColumnSchema>, q: SelectQuery)
    ensures var scan := Scan(q.table);
            var source := if q.condition.Some? then Filter(q.condition.value, scan) else scan;
            Rewrite(EliminateNode, Rewrite(FoldNode, Rewrite(node => CoerceNode(schema, node), source)))
            == if FilterLeft(schema, q).Some? then Filter(FilterLeft(schema, q).value, scan) else scan
  {
    var scan := Scan(q.table);
    assert Rewrite(node => CoerceNode(schema, node), scan) == scan && Rewrite(FoldNode, scan) == scan && Rewrite(EliminateNode, scan) == scan;
    if q.condition.Some? {
      var coerced, folded := Filter(Coerce(schema, q.condition.value), scan), Filter(Folded(schema, q.condition.value), scan);
      assert Rewrite(node => CoerceNode(schema, node), Filter(q.condition.value, scan)) == coerced;
      assert Rewrite(FoldNode, coerced) == folded;
      hide Coerce, Fold;
      assert Rewrite(EliminateNode, folded) == EliminateNode(folded);
    }
  }

  /** A node that no rule changes is rebuilt over its optimized input. */
  lemma ProjectIsOptimized(schema: seq<ColumnSchema>, items: seq<LogicalExpr>, input: LogicalPlan)
    requires NamesOf(items).Some?
    ensures Optimize(schema, Project(items, input)) == Project(items, Optimize(schema, input))
  {
    FoldedNamesAreNames(items);
    var coerce := node => CoerceNode(schema, node);
    var coerced := Rewrite(coerce, input);
    assert Rewrite(coerce, Project(items, input)) == Project(items, coerced);
    assert Rewrite(FoldNode, Project(items, coerced)) == Project(items, Rewrite(FoldNode, coerced));
  }

  lemma AggregationIsOptimized(schema: seq<ColumnSchema>, groupBy: seq<LogicalExpr>, aggregates: seq<LogicalExpr>, input: LogicalPlan)
    ensures Optimize(schema, Aggregation(groupBy, aggregates, input)) == Aggregation(groupBy, aggregates, Optimize(schema, input))
  {
    var coerce := node => CoerceNode(schema, node);
    var coerced := Rewrite(coerce, input);
    assert Rewrite(coerce, Aggregation(groupBy, aggregates, input)) == Aggregation(groupBy, aggregates, coerced);
    assert Rewrite(FoldNode, Aggregation(groupBy, aggregates, coerced)) == Aggregation(groupBy, aggregates, Rewrite(FoldNode, coerced));
  }

  lemma PlanIsOptimized(schema: seq<ColumnSchema>, q: SelectQuery)
    requires NamesOf(q.items).Some? && q.limit.None?
    ensures Optimize(schema, PlanOf(q)) == OptimizedPlan(schema, q)
  {
    var scan := Scan(q.table);
    var source := if q.condition.Some? then Filter(q.condition.value, scan) else scan;
    var rows := if IsAggregating(q) then Aggregation(q.groupBy, AggregatesIn(q.items), source) else source;
    SourceIsOptimized(schema, q);
    ProjectIsOptimized(schema, q.items, rows);
    AggregationIsOptimized(schema, q.groupBy, AggregatesIn(q.items), source);
    hide Rewrite, FilterLeft, IsAggregating, AggregatesIn;
  }

  lemma SourceIsLowered(round: Rounding, table: Name, left: Option<LogicalExpr>, columns: set<Name>)
    requires left.Some? ==> LowerExpr(round, left.value).Some?
    ensures var source := if left.Some? then Filter(left.value, Scan(table)) else Scan(table);
            LowerPlan(round, source, columns)
            == Some(if left.Some? then P.FilterRows(LowerExpr(round, left.value).value, P.FullScan(table, columns))
                    else P.FullScan(table, columns))
  {
  }

  lemma SourceIsPushed(table: Name, condition: Option<PhysicalExpr>, columns: set<Name>)
    requires condition != Some(Constant(BoolOf(true)))
    ensures var source := if condition.Some? then P.FilterRows(condition.value, P.FullScan(table, columns)) else P.FullScan(table, columns);
            P.OptimizePlan(source) == SourcePlan(table, condition, columns)
  {
    var full := P.FullScan(table, columns);
    assert P.RewritePlan(P.EliminateFilterNode, full) == full && P.RewritePlan(P.PushdownNode, full) == full;
    if condition.Some? {
      assert P.RewritePlan(P.EliminateFilterNode, P.FilterRows(condition.value, full)) == P.FilterRows(condition.value, full);
    }
  }

  lemma TopIsPushed(items: seq<PhysicalExpr>, aggregating: bool, groupBy: seq<PhysicalExpr>, specs: seq<AggSpec>, source: P.PhysicalPlan)
    ensures P.OptimizePlan(TopPlan(items, aggregating, groupBy, specs, source))
         == TopPlan(items, aggregating, groupBy, specs, P.OptimizePlan(source))
  {
    var pushed := P.RewritePlan(P.EliminateFilterNode, source);
    if aggregating {
      var rows := P.AggregateRows(groupBy, specs, source);
      assert P.RewritePlan(P.EliminateFilterNode, rows) == P.AggregateRows(groupBy, specs, pushed);
      assert P.RewritePlan(P.PushdownNode, P.AggregateRows(groupBy, specs, pushed))
          == P.AggregateRows(groupBy, specs, P.RewritePlan(P.PushdownNode, pushed));
    }
  }

  /** A condition that the frontend checked never folds to a bare cast. */
  lemma {:induction false} FoldedIsNoCast(schema: seq<ColumnSchema>, e: LogicalExpr)
    requires Checked(schema, e)
    ensures !Folded(schema, e).Cast?
  {
    if e.Binary? && !e.op.Cmp? {
      FoldedIsNoCast(schema, e.left);
      FoldedIsNoCast(schema, e.right);
    } else if e.Binary? {
      var coerced := Coerce(schema, e);
      assert coerced.Binary? && coerced.op.Cmp?;
    }
  }

  /** The condition as the filter and the scan get it; none if there is no filter left */
  function PreparedFilter(schema: seq<ColumnSchema>, round: Rounding, q: SelectQuery): Option<PhysicalExpr> {
    if FilterLeft(schema, q).Some? then LowerExpr(round, FilterLeft(schema, q).value) else None
  }

  lemma FilterIsLowered(schema: seq<ColumnSchema>, round: Rounding, q: SelectQuery)
    requires Accepts(schema, q)
    ensures PreparedFilter(schema, round, q).Some? <==> FilterLeft(schema, q).Some?
    ensures PreparedFilter(schema, round, q) != Some(Constant(BoolOf(true)))
  {
    if FilterLeft(schema, q).Some? {
      var e := q.condition.value;
      CoerceKeepsValue(schema, e, map[]);
      FoldKeepsCasts(Coerce(schema, e));
      LowerKeepsValue(round, Folded(schema, e), map[]);
      FoldedIsNoCast(schema, e);
      hide Coerce, Fold, Checked;
    }
  }

  /** The plan that runs for an accepted query without LIMIT: the projection over the
      aggregation, if there is one, over the source. */
  lemma QueryIsPrepared(schema: seq<ColumnSchema>, round: Rounding, q: SelectQuery)
    requires Accepts(schema, q) && q.limit.None?
    ensures LowerExprs(round, q.items).Some? && LowerExprs(round, q.groupBy).Some? && SpecsOf(AggregatesIn(q.items)).Some?
    ensures Prepared(schema, round, PlanOf(q))
         == Some(TopPlan(LowerExprs(round, q.items).value, IsAggregating(q), LowerExprs(round, q.groupBy).value,
                         SpecsOf(AggregatesIn(q.items)).value,
                         SourcePlan(q.table, PreparedFilter(schema, round, q), ScannedColumns(schema, q))))
  {
    ItemNames(q.items);
    NamesLower(round, q.items);
    ColumnNames(q.groupBy, ColumnsOf(q.groupBy));
    NamesLower(round, q.groupBy);
    AggregateSpecs(q.items);
    PlanIsOptimized(schema, q);
    FilterIsLowered(schema, round, q);
    var columns, left, filter := ScannedColumns(schema, q), FilterLeft(schema, q), PreparedFilter(schema, round, q);
    var refs, groups, specs := LowerExprs(round, q.items).value, LowerExprs(round, q.groupBy).value, SpecsOf(AggregatesIn(q.items)).value;
    SourceIsLowered(round, q.table, left, columns);
    SourceIsPushed(q.table, filter, columns);
    var source := if filter.Some? then P.FilterRows(filter.value, P.FullScan(q.table, columns)) else P.FullScan(q.table, columns);
    TopIsPushed(refs, IsAggregating(q), groups, specs, source);
    var scan := Scan(q.table);
    TopIsLowered(round, q.items, IsAggregating(q), q.groupBy, AggregatesIn(q.items), if left.Some? then Filter(left.value, scan) else scan,
                 source, columns);
    PreparedFrom(schema, round, PlanOf(q), OptimizedPlan(schema, q), TopPlan(refs, IsAggregating(q), groups, specs, source));
    hide *;
  }

  lemma TopIsLowered(round: Rounding, items: seq<LogicalExpr>, aggregating: bool, groupBy: seq<LogicalExpr>, aggregates: seq<LogicalExpr>,
                     input: LogicalPlan, source: P.PhysicalPlan, columns: set<Name>)
    requires LowerExprs(round, items).Some? && LowerExprs(round, groupBy).Some? && SpecsOf(aggregates).Some?
    requires LowerPlan(round, input, columns) == Some(source)
    ensures LowerPlan(round, Project(items, if aggregating then Aggregation(groupBy, aggregates, input) else input), columns)
         == Some(TopPlan(LowerExprs(round, items).value, aggregating, LowerExprs(round, groupBy).value, SpecsOf(aggregates).value, source))
  {
    hide LowerExpr, LowerExprs, SpecsOf;
    assert LowerPlan(round, Aggregation(groupBy, aggregates, input), columns)
        == Some(P.AggregateRows(LowerExprs(round, groupBy).value, SpecsOf(aggregates).value, source));
  }

  lemma PreparedFrom(schema: seq<ColumnSchema>, round: Rounding, plan: LogicalPlan, optimized: LogicalPlan, lowered: P.PhysicalPlan)
    requires Optimize(schema, plan) == optimized && LowerPlan(round, optimized, Collected(optimized)) == Some(lowered)
    ensures Prepared(schema, round, plan) == Some(P.OptimizePlan(lowered))
  {
  }
}
