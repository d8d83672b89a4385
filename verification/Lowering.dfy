/** Lowering a logical plan to a physical one. Scans keep only the columns the query
    mentions, aggregates become named columns, and casts become typed literals. */
module Lowering {
  import opened Wrappers
  import opened Sequences
  import opened Catalog
  import opened Expressions
  import opened Analyzer
  import opened LogicalPlans
  import opened PhysicalPlans

  type Rounding = (DataType, Literal) -> nat

  // ---- Collecting columns ----

  function ExprColumns(e: LogicalExpr): set<Name> {
    match e
    case Column(_, name) => {name}
    case Lit(_) => {}
    case Binary(left, _, right) => ExprColumns(left) + ExprColumns(right)
    case Aggregate(_, column) => {column}
    case Cast(e', _) => ExprColumns(e')
  }

  function ColumnsOf(es: seq<LogicalExpr>): (columns: set<Name>)
    ensures forall i :: 0 <= i < |es| ==> ExprColumns(es[i]) <= columns
  {
    if es == [] then {} else ColumnsOf(es[..|es| - 1]) + ExprColumns(es[|es| - 1])
  }

  /** `collect_columns`: every column the plan mentions */
  function Collected(plan: LogicalPlan): set<Name> {
    match plan
    case Scan(_) => {}
    case Filter(condition, input) => ExprColumns(condition) + Collected(input)
    case Project(projections, input) => ColumnsOf(projections) + Collected(input)
    case Aggregation(groupBy, aggregates, input) => ColumnsOf(groupBy) + ColumnsOf(aggregates) + Collected(input)
    case Limit(_, input) => Collected(input)
  }

  /** The loops over expression lists add to one set in place. */
  method CollectExprs(es: seq<LogicalExpr>, cols: set<Name>) returns (cols': set<Name>)
    ensures cols' == cols + ColumnsOf(es)
  {
    cols' := cols;
    for i := 0 to |es|
      invariant cols' == cols + ColumnsOf(es[..i])
    {
      assert es[..i + 1][..i] == es[..i];
      cols' := CollectExpr(es[i], cols');
    }
    assert es[..|es|] == es;
  }

  method CollectExpr(e: LogicalExpr, cols: set<Name>) returns (cols': set<Name>)
    ensures cols' == cols + ExprColumns(e)
  {
    match e
    case Column(_, name) => cols' := cols + {name};
    case Lit(_) => cols' := cols;
    case Binary(left, _, right) =>
      cols' := CollectExpr(left, cols);
      cols' := CollectExpr(right, cols');
    case Aggregate(_, column) => cols' := cols + {column};
    case Cast(e', _) => cols' := CollectExpr(e', cols);
  }

  method CollectColumns(plan: LogicalPlan, cols: set<Name>) returns (cols': set<Name>)
    ensures cols' == cols + Collected(plan)
    decreases plan
  {
    match plan
    case Scan(_) => cols' := cols;
    case Filter(condition, input) =>
      cols' := CollectExpr(condition, cols);
      cols' := CollectColumns(input, cols');
    case Project(projections, input) =>
      cols' := CollectExprs(projections, cols);
      cols' := CollectColumns(input, cols');
    case Aggregation(groupBy, aggregates, input) =>
      cols' := CollectExprs(groupBy, cols);
      cols' := CollectExprs(aggregates, cols');
      cols' := CollectColumns(input, cols');
    case Limit(_, input) => cols' := CollectColumns(input, cols);
  }

  // ---- Lowering; `None` where the code panics ----

  function LowerLit(l: Literal): TypedLiteral {
    match l
    case Int(n) => IntOf(I64, n)
    case FloatLit(bits) => FloatOf(F64, bits)
    case StrLit(s) => StrOf(s)
    case BoolLit(b) => BoolOf(b)
    case Null => NullOf
  }

  function LowerExpr(round: Rounding, e: LogicalExpr): Option<PhysicalExpr> {
    match e
    case Column(_, name) => Some(ColumnRef(name))
    case Lit(l) => Some(Constant(LowerLit(l)))
    case Binary(left, op, right) =>
      var left', right' := LowerExpr(round, left), LowerExpr(round, right);
      if left'.None? || right'.None? then None
      else (match op
            case Cmp(c) => Some(Comparison(left'.value, c, right'.value))
            case And => Some(Logic(left'.value, AndOp, right'.value))
            case Or => Some(Logic(left'.value, OrOp, right'.value)))
    case Aggregate(f, column) => Some(ColumnRef(OutputName(f, column)))
    case Cast(e', dt) =>
      if !e'.Lit? || NarrowLiteral(e'.literal, dt, round).None? then None
      else Some(Constant(NarrowLiteral(e'.literal, dt, round).value))
  }

  function LowerExprs(round: Rounding, es: seq<LogicalExpr>): Option<seq<PhysicalExpr>> {
    if es == [] then Some([])
    else
      var before, last := LowerExprs(round, es[..|es| - 1]), LowerExpr(round, es[|es| - 1]);
      if before.None? || last.None? then None else Some(before.value + [last.value])
  }

  function LowerPlan(round: Rounding, plan: LogicalPlan, cols: set<Name>): Option<PhysicalPlan> {
    match plan
    case Scan(table) => Some(FullScan(table, cols))
    case Filter(condition, input) =>
      var c, i := LowerExpr(round, condition), LowerPlan(round, input, cols);
      if c.None? || i.None? then None else Some(FilterRows(c.value, i.value))
    case Project(projections, input) =>
      var es, i := LowerExprs(round, projections), LowerPlan(round, input, cols);
      if es.None? || i.None? then None else Some(ProjectRows(es.value, i.value))
    case Aggregation(groupBy, aggregates, input) =>
      var es, specs, i := LowerExprs(round, groupBy), SpecsOf(aggregates), LowerPlan(round, input, cols);
      if es.None? || specs.None? || i.None? then None else Some(AggregateRows(es.value, specs.value, i.value))
    case Limit(limit, input) =>
      var i := LowerPlan(round, input, cols);
      if i.None? then None else Some(LimitRows(limit, i.value))
  }

  function Lower(round: Rounding, plan: LogicalPlan): Option<PhysicalPlan> {
    LowerPlan(round, plan, Collected(plan))
  }

  // ---- Expressions keep their value ----

  /** With casts around literals that narrow, lowering never reaches its panic arms and
      gives the same value on every row. */
  lemma {:induction false} LowerKeepsValue(round: Rounding, e: LogicalExpr, row: Row)
    requires CastsWrapLiterals(e)
    ensures LowerExpr(round, e).Some? && EvalPhysical(LowerExpr(round, e).value, row) == Eval(e, row)
  {
    match e
    case Binary(left, op, right) =>
      LowerKeepsValue(round, left, row);
      LowerKeepsValue(round, right, row);
    case Cast(e', dt) => NarrowKeepsValue(e'.literal, dt, round);
    case _ =>
  }

  /** No aggregate inside: the expression reads table columns only. */
  predicate ReadsColumns(e: LogicalExpr) {
    match e
    case Binary(left, _, right) => ReadsColumns(left) && ReadsColumns(right)
    case Aggregate(_, _) => false
    case Cast(e', _) => ReadsColumns(e')
    case _ => true
  }

  lemma {:induction false} RestrictKeepsValue(e: LogicalExpr, row: Row, cols: set<Name>)
    requires ExprColumns(e) <= cols && ReadsColumns(e)
    ensures Eval(e, Restrict(row, cols)) == Eval(e, row)
  {
    match e
    case Binary(left, _, right) =>
      RestrictKeepsValue(left, row, cols);
      RestrictKeepsValue(right, row, cols);
    case _ =>
  }

  // ---- Plans keep their answer ----

  /** Rows above a projection or an aggregation are no longer table rows. */
  predicate Reshaped(plan: LogicalPlan) {
    match plan
    case Scan(_) => false
    case Filter(_, input) => Reshaped(input)
    case Limit(_, input) => Reshaped(input)
    case _ => true
  }

  predicate AllReadColumns(es: seq<LogicalExpr>) {
    forall i :: 0 <= i < |es| ==> ReadsColumns(es[i])
  }

  /** Aggregates are read only above the node that computes them. */
  predicate AggregatesAbove(plan: LogicalPlan) {
    match plan
    case Scan(_) => true
    case Filter(condition, input) => AggregatesAbove(input) && (Reshaped(input) || ReadsColumns(condition))
    case Project(projections, input) => AggregatesAbove(input) && (Reshaped(input) || AllReadColumns(projections))
    case Aggregation(_, _, input) => AggregatesAbove(input)
    case Limit(_, input) => AggregatesAbove(input)
  }

  /** What pruning leaves of a plan's rows */
  ghost function Pruned(plan: LogicalPlan, cols: set<Name>, rows: seq<Row>): seq<Row> {
    if Reshaped(plan) then rows else RestrictAll(rows, cols)
  }

  lemma {:induction false} SelectedPruned(p: Row -> Option<bool>, q: Row -> Option<bool>, rows: seq<Row>, cols: set<Name>)
    requires forall row :: q(Restrict(row, cols)) == p(row)
    ensures Selected(q, RestrictAll(rows, cols))
         == if Selected(p, rows).None? then None else Some(RestrictAll(Selected(p, rows).value, cols))
  {
    if rows != [] {
      var front, last := rows[..|rows| - 1], rows[|rows| - 1];
      SelectedPruned(p, q, front, cols);
      assert RestrictAll(rows, cols)[..|rows| - 1] == RestrictAll(front, cols);
      if Selected(p, front).Some? {
        var kept := Selected(p, front).value;
        assert RestrictAll(kept + [last], cols) == RestrictAll(kept, cols) + [Restrict(last, cols)];
        assert kept + [] == kept && RestrictAll(kept, cols) + [] == RestrictAll(kept, cols);
      }
    }
  }

  lemma {:induction false} SelectedSame(p: Row -> Option<bool>, q: Row -> Option<bool>, rows: seq<Row>)
    requires forall row :: q(row) == p(row)
    ensures Selected(q, rows) == Selected(p, rows)
  {
    if rows != [] { SelectedSame(p, q, rows[..|rows| - 1]); }
  }

  lemma {:induction false} MappedPruned<T>(f: Row -> Option<T>, g: Row -> Option<T>, rows: seq<Row>, cols: set<Name>)
    requires forall row :: g(Restrict(row, cols)) == f(row)
    ensures Mapped(g, RestrictAll(rows, cols)) == Mapped(f, rows)
  {
    if rows != [] {
      MappedPruned(f, g, rows[..|rows| - 1], cols);
      assert RestrictAll(rows, cols)[..|rows| - 1] == RestrictAll(rows[..|rows| - 1], cols);
    }
  }

  lemma {:induction false} NamesLower(round: Rounding, es: seq<LogicalExpr>)
    requires NamesOf(es).Some?
    ensures LowerExprs(round, es).Some? && RefNames(LowerExprs(round, es).value) == NamesOf(es)
  {
    if es != [] {
      NamesLower(round, es[..|es| - 1]);
      var before := LowerExprs(round, es[..|es| - 1]).value;
      var last := LowerExpr(round, es[|es| - 1]).value;
      assert (before + [last])[..|before|] == before;
    }
  }

  lemma {:induction false} NamesAreColumns(es: seq<LogicalExpr>, cols: set<Name>)
    requires NamesOf(es).Some? && ColumnsOf(es) <= cols && AllReadColumns(es)
    ensures forall name :: name in NamesOf(es).value ==> name in cols
  {
    if es != [] {
      NamesAreColumns(es[..|es| - 1], cols);
      assert es[|es| - 1].Column?;
    }
  }

  lemma LookupsPruned(row: Row, names: seq<Name>, cols: set<Name>)
    requires forall name :: name in names ==> name in cols
    ensures Lookups(Restrict(row, cols), names) == Lookups(row, names)
  {
  }

  lemma {:induction false} SpecColumns(es: seq<LogicalExpr>, cols: set<Name>)
    requires SpecsOf(es).Some? && ColumnsOf(es) <= cols
    ensures forall spec :: spec in SpecsOf(es).value ==> spec.column in cols
  {
    if es != [] { SpecColumns(es[..|es| - 1], cols); }
  }

  lemma GroupRowPruned(summary: Summary, groupBy: seq<Name>, specs: seq<AggSpec>, rows: seq<Row>,
                       keys: seq<seq<Value>>, key: seq<Value>, cols: set<Name>)
    requires forall spec :: spec in specs ==> spec.column in cols
    ensures GroupRow(summary, groupBy, specs, RestrictAll(rows, cols), keys, key)
         == GroupRow(summary, groupBy, specs, rows, keys, key)
  {
    if |key| == |groupBy| {
      forall i | 0 <= i < |specs|
        ensures Summarized(summary, specs[i], RestrictAll(rows, cols), keys, key)
             == Summarized(summary, specs[i], rows, keys, key)
      {
        assert specs[i] in specs;
        MappedPruned(row => Lookup(row, specs[i].column), row => Lookup(row, specs[i].column), rows, cols);
      }
      assert seq(|specs|, i requires 0 <= i < |specs| => Summarized(summary, specs[i], RestrictAll(rows, cols), keys, key))
          == seq(|specs|, i requires 0 <= i < |specs| => Summarized(summary, specs[i], rows, keys, key));
    }
  }

  lemma {:induction false} GroupRowsPruned(summary: Summary, groupBy: seq<Name>, specs: seq<AggSpec>, rows: seq<Row>,
                                           keys: seq<seq<Value>>, groups: seq<seq<Value>>, cols: set<Name>)
    requires forall spec :: spec in specs ==> spec.column in cols
    ensures GroupRows(summary, groupBy, specs, RestrictAll(rows, cols), keys, groups)
         == GroupRows(summary, groupBy, specs, rows, keys, groups)
  {
    if groups != [] {
      GroupRowsPruned(summary, groupBy, specs, rows, keys, groups[..|groups| - 1], cols);
      GroupRowPruned(summary, groupBy, specs, rows, keys, groups[|groups| - 1], cols);
    }
  }

  lemma GroupedPruned(summary: Summary, groupBy: seq<Name>, specs: seq<AggSpec>, rows: seq<Row>, cols: set<Name>)
    requires (forall name :: name in groupBy ==> name in cols) && (forall spec :: spec in specs ==> spec.column in cols)
    ensures Grouped(summary, groupBy, specs, RestrictAll(rows, cols)) == Grouped(summary, groupBy, specs, rows)
  {
    forall row ensures AllOf(Lookups(Restrict(row, cols), groupBy)) == AllOf(Lookups(row, groupBy)) {
      LookupsPruned(row, groupBy, cols);
    }
    var keysOf := row => AllOf(Lookups(row, groupBy));
    MappedPruned(keysOf, keysOf, rows, cols);
    var keys := Mapped(keysOf, rows);
    if keys.Some? {
      GroupRowsPruned(summary, groupBy, specs, rows, keys.value, if groupBy == [] then [[]] else FirstSeen(keys.value), cols);
    }
  }

  lemma {:induction false} ColumnNames(es: seq<LogicalExpr>, cols: set<Name>)
    requires AllColumns(es) && ColumnsOf(es) <= cols
    ensures NamesOf(es).Some? && forall name :: name in NamesOf(es).value ==> name in cols
  {
    if es != [] { ColumnNames(es[..|es| - 1], cols); }
  }

  lemma ProjectionPruned(plan: LogicalPlan, rows: seq<Row>, cols: set<Name>)
    requires plan.Project? && ColumnsOf(plan.projections) <= cols && AggregatesAbove(plan) && NamesOf(plan.projections).Some?
    ensures var names := NamesOf(plan.projections).value;
            var f := row => Named(names, Lookups(row, names));
            Mapped(f, Pruned(plan.input, cols, rows)) == Mapped(f, rows)
  {
    var names := NamesOf(plan.projections).value;
    var f := row => Named(names, Lookups(row, names));
    if !Reshaped(plan.input) {
      NamesAreColumns(plan.projections, cols);
      forall row ensures f(Restrict(row, cols)) == f(row) {
        LookupsPruned(row, names, cols);
      }
      MappedPruned(f, f, rows, cols);
    }
  }

  lemma FilterPruned(round: Rounding, plan: LogicalPlan, rows: seq<Row>, cols: set<Name>)
    requires plan.Filter? && ExprColumns(plan.condition) <= cols && AggregatesAbove(plan) && CastsWrapLiterals(plan.condition)
    ensures LowerExpr(round, plan.condition).Some?
    ensures var lowered := LowerExpr(round, plan.condition).value;
            var selected := Selected(row => Truth(Eval(plan.condition, row)), rows);
            Selected(row => Truth(EvalPhysical(lowered, row)), Pruned(plan.input, cols, rows))
            == if selected.None? then None else Some(Pruned(plan.input, cols, selected.value))
  {
    LowerKeepsValue(round, plan.condition, map[]);
    var lowered := LowerExpr(round, plan.condition).value;
    var p, q := row => Truth(Eval(plan.condition, row)), row => Truth(EvalPhysical(lowered, row));
    forall row ensures q(row) == p(row) {
      LowerKeepsValue(round, plan.condition, row);
    }
    if Reshaped(plan.input) {
      SelectedSame(p, q, rows);
    } else {
      forall row ensures q(Restrict(row, cols)) == p(row) {
        LowerKeepsValue(round, plan.condition, Restrict(row, cols));
        RestrictKeepsValue(plan.condition, row, cols);
      }
      SelectedPruned(p, q, rows, cols);
    }
  }

  /** The lowered plan, run over rows that hold only the collected columns, answers as
      the logical plan does over whole rows: exactly, above a projection. */
  lemma {:induction false} LowerKeepsAnswer(summary: Summary, round: Rounding, plan: LogicalPlan, cols: set<Name>,
                                            parts: seq<Part>)
    requires Collected(plan) <= cols && AggregatesAbove(plan) && FiltersAre(CastsWrapLiterals, plan)
    requires Answer(summary, plan, AllRows(parts)).Some?
    ensures LowerPlan(round, plan, cols).Some?
    ensures RunAnswer(summary, LowerPlan(round, plan, cols).value, parts)
         == Some(Pruned(plan, cols, Answer(summary, plan, AllRows(parts)).value))
    decreases plan
  {
    hide Selected, Mapped, Grouped, Named, NamesOf, SpecsOf, LowerExpr, LowerExprs, RefNames, AllRows;
    if !plan.Scan? {
      LowerKeepsAnswer(summary, round, plan.input, cols, parts);
      var rows := Answer(summary, plan.input, AllRows(parts)).value;
      match plan
      case Filter(condition, input) => FilterPruned(round, plan, rows, cols);
      case Project(projections, input) =>
        NamesLower(round, projections);
        ProjectionPruned(plan, rows, cols);
      case Aggregation(groupBy, aggregates, input) =>
        NamesLower(round, groupBy);
        ColumnNames(groupBy, cols);
        SpecColumns(aggregates, cols);
        if !Reshaped(input) {
          GroupedPruned(summary, NamesOf(groupBy).value, SpecsOf(aggregates).value, rows, cols);
        }
      case Limit(limit, input) =>
        assert RestrictAll(Taken(limit, rows), cols) == Taken(limit, RestrictAll(rows, cols));
    }
  }
}
