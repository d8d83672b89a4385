/** From the plan as written to the plan that runs: coercion, folding, elimination,
    lowering with column pruning, and pushdown to part skipping, all together. */
module QueryMeaning {
  import opened Wrappers
  import opened Catalog
  import opened Expressions
  import opened LogicalPlans
  import opened PhysicalPlans
  import opened Lowering

  // ---- What the logical rules keep besides the answer ----

  ghost predicate KeepsShape(f: LogicalPlan -> LogicalPlan) {
    forall p {:trigger f(p)} :: AggregatesAbove(p) ==> AggregatesAbove(f(p)) && Reshaped(f(p)) == Reshaped(p)
  }

  lemma {:induction false} RewriteKeepsShape(f: LogicalPlan -> LogicalPlan, plan: LogicalPlan)
    requires KeepsShape(f) && AggregatesAbove(plan)
    ensures AggregatesAbove(Rewrite(f, plan)) && Reshaped(Rewrite(f, plan)) == Reshaped(plan)
    decreases plan
  {
    if !plan.Scan? {
      RewriteKeepsShape(f, plan.input);
      var node := plan.(input := Rewrite(f, plan.input));
      assert AggregatesAbove(node) && Reshaped(node) == Reshaped(plan);
    }
  }

  predicate InputIs(ok: LogicalExpr -> bool, p: LogicalPlan) {
    p.Scan? || FiltersAre(ok, p.input)
  }

  /** A rule that turns `ok` conditions into `ok'` ones does so in the whole plan. */
  lemma {:induction false} RewriteFilters(f: LogicalPlan -> LogicalPlan, ok: LogicalExpr -> bool,
                                          ok': LogicalExpr -> bool, plan: LogicalPlan)
    requires forall p: LogicalPlan :: InputIs(ok', p) && (p.Filter? ==> ok(p.condition)) ==> FiltersAre(ok', f(p))
    requires FiltersAre(ok, plan)
    ensures FiltersAre(ok', Rewrite(f, plan))
    decreases plan
  {
    if plan.Scan? {
      assert InputIs(ok', plan);
    } else {
      RewriteFilters(f, ok, ok', plan.input);
      var node := plan.(input := Rewrite(f, plan.input));
      assert InputIs(ok', node);
    }
  }

  lemma {:induction false} CoerceKeepsReads(schema: seq<ColumnSchema>, e: LogicalExpr)
    ensures ReadsColumns(Coerce(schema, e)) == ReadsColumns(e)
  {
    match e
    case Binary(left, op, right) =>
      CoerceKeepsReads(schema, left);
      CoerceKeepsReads(schema, right);
    case Cast(e', _) => CoerceKeepsReads(schema, e');
    case _ =>
  }

  lemma {:induction false} FoldKeepsReads(e: LogicalExpr)
    requires ReadsColumns(e)
    ensures ReadsColumns(Fold(e))
  {
    match e
    case Binary(left, op, right) =>
      FoldKeepsReads(left);
      FoldKeepsReads(right);
    case _ =>
  }

  lemma CoerceNodeKeepsShape(schema: seq<ColumnSchema>, p: LogicalPlan)
    requires AggregatesAbove(p)
    ensures AggregatesAbove(CoerceNode(schema, p)) && Reshaped(CoerceNode(schema, p)) == Reshaped(p)
  {
    if p.Filter? { CoerceKeepsReads(schema, p.condition); }
  }

  lemma FoldNodeKeepsShape(p: LogicalPlan)
    requires AggregatesAbove(p)
    ensures AggregatesAbove(FoldNode(p)) && Reshaped(FoldNode(p)) == Reshaped(p)
  {
    if p.Filter? && ReadsColumns(p.condition) {
      FoldKeepsReads(p.condition);
    } else if p.Project? && AllReadColumns(p.projections) {
      forall i | 0 <= i < |p.projections| ensures ReadsColumns(Fold(p.projections[i])) {
        FoldKeepsReads(p.projections[i]);
      }
    }
  }

  lemma RulesKeepShape(schema: seq<ColumnSchema>)
    ensures KeepsShape(node => CoerceNode(schema, node)) && KeepsShape(FoldNode) && KeepsShape(EliminateNode)
  {
    hide AggregatesAbove, Reshaped, CoerceNode, FoldNode, EliminateNode;
    forall p {:trigger CoerceNode(schema, p)} | AggregatesAbove(p)
      ensures AggregatesAbove(CoerceNode(schema, p)) && Reshaped(CoerceNode(schema, p)) == Reshaped(p)
    {
      CoerceNodeKeepsShape(schema, p);
    }
    forall p {:trigger FoldNode(p)} | AggregatesAbove(p)
      ensures AggregatesAbove(FoldNode(p)) && Reshaped(FoldNode(p)) == Reshaped(p)
    {
      FoldNodeKeepsShape(p);
    }
    forall p {:trigger EliminateNode(p)} | AggregatesAbove(p)
      ensures AggregatesAbove(EliminateNode(p)) && Reshaped(EliminateNode(p)) == Reshaped(p)
    {
      EliminateNodeKeepsShape(p);
    }
  }

  lemma EliminateNodeKeepsShape(p: LogicalPlan)
    requires AggregatesAbove(p)
    ensures AggregatesAbove(EliminateNode(p)) && Reshaped(EliminateNode(p)) == Reshaped(p)
  {
  }

  lemma OptimizeKeepsShape(schema: seq<ColumnSchema>, plan: LogicalPlan)
    requires AggregatesAbove(plan)
    ensures AggregatesAbove(Optimize(schema, plan)) && Reshaped(Optimize(schema, plan)) == Reshaped(plan)
  {
    hide AggregatesAbove, Reshaped, Rewrite, KeepsShape;
    RulesKeepShape(schema);
    var coerced := Rewrite(node => CoerceNode(schema, node), plan);
    RewriteKeepsShape(node => CoerceNode(schema, node), plan);
    RewriteKeepsShape(FoldNode, coerced);
    RewriteKeepsShape(EliminateNode, Rewrite(FoldNode, coerced));
  }

  lemma CoercedCastsNarrow(schema: seq<ColumnSchema>, plan: LogicalPlan)
    requires FiltersAre(e => Checked(schema, e), plan)
    ensures FiltersAre(CastsWrapLiterals, Rewrite(node => CoerceNode(schema, node), plan))
  {
    var checked, coerce := (e: LogicalExpr) => Checked(schema, e), node => CoerceNode(schema, node);
    forall p: LogicalPlan | InputIs(CastsWrapLiterals, p) && (p.Filter? ==> checked(p.condition))
      ensures FiltersAre(CastsWrapLiterals, coerce(p))
    {
      if p.Filter? { CoerceKeepsValue(schema, p.condition, map[]); }
    }
    RewriteFilters(coerce, checked, CastsWrapLiterals, plan);
  }

  lemma FoldedCastsNarrow(plan: LogicalPlan)
    requires FiltersAre(CastsWrapLiterals, plan)
    ensures FiltersAre(CastsWrapLiterals, Rewrite(FoldNode, plan))
  {
    forall p: LogicalPlan | InputIs(CastsWrapLiterals, p) && (p.Filter? ==> CastsWrapLiterals(p.condition))
      ensures FiltersAre(CastsWrapLiterals, FoldNode(p))
    {
      if p.Filter? { FoldKeepsCasts(p.condition); }
    }
    RewriteFilters(FoldNode, CastsWrapLiterals, CastsWrapLiterals, plan);
  }

  lemma EliminatedCastsNarrow(plan: LogicalPlan)
    requires FiltersAre(CastsWrapLiterals, plan)
    ensures FiltersAre(CastsWrapLiterals, Rewrite(EliminateNode, plan))
  {
    RewriteFilters(EliminateNode, CastsWrapLiterals, CastsWrapLiterals, plan);
  }

  /** Every cast in the optimized plan wraps a literal that narrows. */
  lemma OptimizedCastsNarrow(schema: seq<ColumnSchema>, plan: LogicalPlan)
    requires FiltersAre(e => Checked(schema, e), plan)
    ensures FiltersAre(CastsWrapLiterals, Optimize(schema, plan))
  {
    hide FiltersAre, Rewrite;
    CoercedCastsNarrow(schema, plan);
    var coerced := Rewrite(node => CoerceNode(schema, node), plan);
    FoldedCastsNarrow(coerced);
    EliminatedCastsNarrow(Rewrite(FoldNode, coerced));
  }

  /** The plan that runs, from the plan as written; `None` if lowering panics */
  function Prepared(schema: seq<ColumnSchema>, round: Rounding, plan: LogicalPlan): Option<PhysicalPlan> {
    match Lower(round, Optimize(schema, plan))
    case None => None
    case Some(lowered) => Some(OptimizePlan(lowered))
  }

  /** If a query has an answer over all rows of the table, its prepared plan gives that
      answer over parts with truthful zone maps, reading only the columns it mentions
      and skipping parts. */
  lemma QueryMeaningIsKept(summary: Summary, schema: seq<ColumnSchema>, round: Rounding, plan: LogicalPlan, parts: seq<Part>)
    requires FiltersAre(e => Checked(schema, e), plan) && AggregatesAbove(plan) && Reshaped(plan)
    requires forall i :: 0 <= i < |parts| ==> ZonesBound(parts[i])
    requires Answer(summary, plan, AllRows(parts)).Some?
    ensures Prepared(schema, round, plan).Some?
    ensures RunAnswer(summary, Prepared(schema, round, plan).value, parts) == Answer(summary, plan, AllRows(parts))
  {
    hide Answer, RunAnswer, AllRows, FiltersAre, AggregatesAbove, Reshaped, Optimize, OptimizePlan, LowerPlan, Collected, ZonesBound;
    OptimizeRefines(summary, AllRows(parts), schema, plan);
    OptimizedCastsNarrow(schema, plan);
    OptimizeKeepsShape(schema, plan);
    var optimized := Optimize(schema, plan);
    LowerKeepsAnswer(summary, round, optimized, Collected(optimized), parts);
    OptimizePlanRefines(summary, parts, Lower(round, optimized).value);
  }
}
