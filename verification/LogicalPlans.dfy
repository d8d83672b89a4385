/** Logical plans, the rows they answer with, and the optimizer's rules: type coercion,
    constant folding, elimination of true filters. */
module LogicalPlans {
  import opened Wrappers
  import opened Sequences
  import opened Catalog
  import opened Expressions

  datatype LogicalPlan =
    | Scan(table: Name)
    | Filter(condition: LogicalExpr, input: LogicalPlan)
    | Project(projections: seq<LogicalExpr>, input: LogicalPlan)
    | Aggregation(groupBy: seq<LogicalExpr>, aggregates: seq<LogicalExpr>, input: LogicalPlan)
    | Limit(limit: nat, input: LogicalPlan)

  // ---- Operators on rows; no answer if an expression has no value on some row ----

  /** What an aggregate function makes of the column's values in one group; the
      accumulators' own meaning is that of `Aggregates`. */
  type Summary = (AggFunc, Name, seq<Value>) -> Option<Value>

  ghost function Selected(test: Row -> Option<bool>, rows: seq<Row>): Option<seq<Row>> {
    if rows == [] then Some([])
    else
      var before, row := Selected(test, rows[..|rows| - 1]), rows[|rows| - 1];
      if before.None? || test(row).None? then None
      else Some(before.value + if test(row).value then [row] else [])
  }

  ghost function Mapped<T>(f: Row -> Option<T>, rows: seq<Row>): Option<seq<T>> {
    if rows == [] then Some([])
    else
      var before, row := Mapped(f, rows[..|rows| - 1]), rows[|rows| - 1];
      if before.None? || f(row).None? then None else Some(before.value + [f(row).value])
  }

  /** A row of named results, if each has a value */
  function Named(names: seq<Name>, values: seq<Option<Value>>): Option<Row>
    requires |names| == |values|
  {
    if names == [] then Some(map[])
    else
      var last := |names| - 1;
      var before := Named(names[..last], values[..last]);
      if before.None? || values[last].None? then None else Some(before.value[names[last] := values[last].value])
  }

  function Lookups(row: Row, names: seq<Name>): (values: seq<Option<Value>>)
    ensures |values| == |names| && forall i :: 0 <= i < |names| ==> values[i] == Lookup(row, names[i])
  {
    seq(|names|, i requires 0 <= i < |names| => Lookup(row, names[i]))
  }

  function AllOf(values: seq<Option<Value>>): Option<seq<Value>> {
    if values == [] then Some([])
    else
      var before, last := AllOf(values[..|values| - 1]), values[|values| - 1];
      if before.None? || last.None? then None else Some(before.value + [last.value])
  }

  datatype AggSpec = AggSpec(func: AggFunc, column: Name, outputName: Name)

  /** The values of `column` in the rows of one group */
  ghost function ArgumentsOf(keys: seq<seq<Value>>, arguments: seq<Value>, key: seq<Value>): seq<Value>
    requires |keys| == |arguments|
  {
    if keys == [] then []
    else
      var last := |keys| - 1;
      ArgumentsOf(keys[..last], arguments[..last], key) + if keys[last] == key then [arguments[last]] else []
  }

  lemma {:induction false} MappedLength<T>(f: Row -> Option<T>, rows: seq<Row>)
    ensures Mapped(f, rows).Some? ==> |Mapped(f, rows).value| == |rows|
  {
    if rows != [] {
      MappedLength(f, rows[..|rows| - 1]);
    }
  }

  /** One aggregate of one group */
  ghost function Summarized(summary: Summary, spec: AggSpec, rows: seq<Row>, keys: seq<seq<Value>>,
                            key: seq<Value>): Option<Value>
  {
    var arguments := Mapped(row => Lookup(row, spec.column), rows);
    MappedLength(row => Lookup(row, spec.column), rows);
    if arguments.None? || |keys| != |rows| then None
    else summary(spec.func, spec.column, ArgumentsOf(keys, arguments.value, key))
  }

  function OutputNames(specs: seq<AggSpec>): (names: seq<Name>)
    ensures |names| == |specs| && forall i :: 0 <= i < |specs| ==> names[i] == specs[i].outputName
  {
    seq(|specs|, i requires 0 <= i < |specs| => specs[i].outputName)
  }

  function Somes(values: seq<Value>): (options: seq<Option<Value>>)
    ensures |options| == |values| && forall i :: 0 <= i < |values| ==> options[i] == Some(values[i])
  {
    seq(|values|, i requires 0 <= i < |values| => Some(values[i]))
  }

  ghost function GroupRow(summary: Summary, groupBy: seq<Name>, specs: seq<AggSpec>, rows: seq<Row>,
                          keys: seq<seq<Value>>, key: seq<Value>): Option<Row>
  {
    if |key| != |groupBy| then None
    else
      var results := seq(|specs|, i requires 0 <= i < |specs| => Summarized(summary, specs[i], rows, keys, key));
      Named(groupBy + OutputNames(specs), Somes(key) + results)
  }

  ghost function GroupRows(summary: Summary, groupBy: seq<Name>, specs: seq<AggSpec>, rows: seq<Row>,
                           keys: seq<seq<Value>>, groups: seq<seq<Value>>): Option<seq<Row>>
  {
    if groups == [] then Some([])
    else
      var before := GroupRows(summary, groupBy, specs, rows, keys, groups[..|groups| - 1]);
      var row := GroupRow(summary, groupBy, specs, rows, keys, groups[|groups| - 1]);
      if before.None? || row.None? then None else Some(before.value + [row.value])
  }

  /** A row per group, in order of first appearance; without GROUP BY one group always */
  ghost function Grouped(summary: Summary, groupBy: seq<Name>, specs: seq<AggSpec>, rows: seq<Row>): Option<seq<Row>> {
    var keys := Mapped(row => AllOf(Lookups(row, groupBy)), rows);
    if keys.None? then None
    else GroupRows(summary, groupBy, specs, rows, keys.value, if groupBy == [] then [[]] else FirstSeen(keys.value))
  }

  // ---- What a plan answers ----

  /** The name of a projected expression; only columns and aggregates are projected. */
  function NameOf(e: LogicalExpr): Option<Name> {
    match e
    case Column(_, name) => Some(name)
    case Aggregate(f, column) => Some(OutputName(f, column))
    case _ => None
  }

  function NamesOf(es: seq<LogicalExpr>): Option<seq<Name>> {
    if es == [] then Some([])
    else
      var before, last := NamesOf(es[..|es| - 1]), NameOf(es[|es| - 1]);
      if before.None? || last.None? then None else Some(before.value + [last.value])
  }

  function SpecOf(e: LogicalExpr): Option<AggSpec> {
    if e.Aggregate? then Some(AggSpec(e.func, e.column, OutputName(e.func, e.column))) else None
  }

  function SpecsOf(es: seq<LogicalExpr>): Option<seq<AggSpec>> {
    if es == [] then Some([])
    else
      var before, last := SpecsOf(es[..|es| - 1]), SpecOf(es[|es| - 1]);
      if before.None? || last.None? then None else Some(before.value + [last.value])
  }

  function Taken(limit: nat, rows: seq<Row>): seq<Row> {
    if limit <= |rows| then rows[..limit] else rows
  }

  ghost function Answer(summary: Summary, plan: LogicalPlan, table: seq<Row>): Option<seq<Row>> {
    match plan
    case Scan(_) => Some(table)
    case Filter(condition, input) =>
      (match Answer(summary, input, table)
       case None => None
       case Some(rows) => Selected(row => Truth(Eval(condition, row)), rows))
    case Project(projections, input) =>
      (match Answer(summary, input, table)
       case None => None
       case Some(rows) =>
         match NamesOf(projections)
         case None => None
         case Some(names) => Mapped(row => Named(names, Lookups(row, names)), rows))
    case Aggregation(groupBy, aggregates, input) =>
      (match Answer(summary, input, table)
       case None => None
       case Some(rows) =>
         if NamesOf(groupBy).None? || SpecsOf(aggregates).None? || !AllColumns(groupBy) then None
         else Grouped(summary, NamesOf(groupBy).value, SpecsOf(aggregates).value, rows))
    case Limit(limit, input) =>
      (match Answer(summary, input, table)
       case None => None
       case Some(rows) => Some(Taken(limit, rows)))
  }

  predicate AllColumns(es: seq<LogicalExpr>) {
    forall i :: 0 <= i < |es| ==> es[i].Column?
  }

  // ---- Rewriting ----

  /** Applies `f` bottom-up to every node. */
  function Rewrite(f: LogicalPlan -> LogicalPlan, plan: LogicalPlan): LogicalPlan
    decreases plan
  {
    match plan
    case Scan(_) => f(plan)
    case Filter(condition, input) => f(Filter(condition, Rewrite(f, input)))
    case Project(projections, input) => f(Project(projections, Rewrite(f, input)))
    case Aggregation(groupBy, aggregates, input) => f(Aggregation(groupBy, aggregates, Rewrite(f, input)))
    case Limit(limit, input) => f(Limit(limit, Rewrite(f, input)))
  }

  /** `q` answers whatever `p` answers. */
  ghost predicate Refines(summary: Summary, table: seq<Row>, p: LogicalPlan, q: LogicalPlan) {
    Answer(summary, p, table).Some? ==> Answer(summary, q, table) == Answer(summary, p, table)
  }

  /** `f` refines every node, filters if their condition is `ok`. */
  ghost predicate RuleRefines(summary: Summary, table: seq<Row>, f: LogicalPlan -> LogicalPlan, ok: LogicalExpr -> bool) {
    forall p: LogicalPlan :: (p.Filter? ==> ok(p.condition)) ==> Refines(summary, table, p, f(p))
  }

  /** Every filter's predicate satisfies `ok`. */
  predicate FiltersAre(ok: LogicalExpr -> bool, plan: LogicalPlan) {
    match plan
    case Scan(_) => true
    case Filter(condition, input) => ok(condition) && FiltersAre(ok, input)
    case Project(_, input) => FiltersAre(ok, input)
    case Aggregation(_, _, input) => FiltersAre(ok, input)
    case Limit(_, input) => FiltersAre(ok, input)
  }

  /** A rule that keeps each filter's meaning keeps the plan's answer. */
  lemma {:induction false} RewriteRefines(summary: Summary, table: seq<Row>, f: LogicalPlan -> LogicalPlan,
                                          ok: LogicalExpr -> bool, plan: LogicalPlan)
    requires RuleRefines(summary, table, f, ok) && FiltersAre(ok, plan)
    ensures Refines(summary, table, plan, Rewrite(f, plan))
    decreases plan
  {
    hide Selected, Mapped, Grouped, Named, NamesOf, SpecsOf, AllColumns;
    match plan
    case Scan(_) =>
      assert Refines(summary, table, plan, f(plan));
    case Filter(condition, input) =>
      RewriteRefines(summary, table, f, ok, input);
      var node := Filter(condition, Rewrite(f, input));
      assert Refines(summary, table, plan, node) && Refines(summary, table, node, f(node));
    case Project(projections, input) =>
      RewriteRefines(summary, table, f, ok, input);
      var node := Project(projections, Rewrite(f, input));
      assert Refines(summary, table, plan, node) && Refines(summary, table, node, f(node));
    case Aggregation(groupBy, aggregates, input) =>
      RewriteRefines(summary, table, f, ok, input);
      var node := Aggregation(groupBy, aggregates, Rewrite(f, input));
      assert Refines(summary, table, plan, node) && Refines(summary, table, node, f(node));
    case Limit(limit, input) =>
      RewriteRefines(summary, table, f, ok, input);
      var node := Limit(limit, Rewrite(f, input));
      assert Refines(summary, table, plan, node) && Refines(summary, table, node, f(node));
  }

  /** A filter whose predicate keeps its value wherever it has one keeps its answer. */
  lemma {:induction false} SelectedRefines(p: Row -> Option<bool>, q: Row -> Option<bool>, rows: seq<Row>)
    requires forall row :: p(row).Some? ==> q(row) == p(row)
    ensures Selected(p, rows).Some? ==> Selected(q, rows) == Selected(p, rows)
  {
    if rows != [] {
      SelectedRefines(p, q, rows[..|rows| - 1]);
    }
  }

  lemma FilterRefines(summary: Summary, table: seq<Row>, p: LogicalExpr, q: LogicalExpr, input: LogicalPlan)
    requires forall row :: Eval(p, row).Some? ==> Eval(q, row) == Eval(p, row)
    ensures Refines(summary, table, Filter(p, input), Filter(q, input))
  {
    var answer := Answer(summary, input, table);
    if answer.Some? {
      SelectedRefines(row => Truth(Eval(p, row)), row => Truth(Eval(q, row)), answer.value);
    }
  }

  // ---- Type coercion ----

  /** `coerce_comparison`: a literal compared with a column is cast to the column's type. */
  function CoerceComparison(schema: seq<ColumnSchema>, left: LogicalExpr, op: CmpOp, right: LogicalExpr): LogicalExpr {
    if left.Column? && right.Lit? && TypeOf(schema, left.name).Some? then
      Binary(left, Cmp(op), Cast(right, TypeOf(schema, left.name).value))
    else if left.Lit? && right.Column? && TypeOf(schema, right.name).Some? then
      Binary(Cast(left, TypeOf(schema, right.name).value), Cmp(op), right)
    else Binary(left, Cmp(op), right)
  }

  function Coerce(schema: seq<ColumnSchema>, e: LogicalExpr): LogicalExpr {
    match e
    case Binary(left, op, right) =>
      var left', right' := Coerce(schema, left), Coerce(schema, right);
      if op.Cmp? then CoerceComparison(schema, left', op.op, right') else Binary(left', op, right')
    case Cast(e', dt) => Cast(Coerce(schema, e'), dt)
    case _ => e
  }

  /** Literals compared with columns are ones the column's type represents, columns
      exist, and there are no casts yet: what the frontend hands over, floats aside. */
  predicate Checked(schema: seq<ColumnSchema>, e: LogicalExpr) {
    match e
    case Column(_, name) => TypeOf(schema, name).Some?
    case Lit(_) => true
    case Binary(left, op, right) =>
      && Checked(schema, left) && Checked(schema, right)
      && (op.Cmp? && left.Column? && right.Lit? ==> Represents(TypeOf(schema, left.name).value, right.literal))
      && (op.Cmp? && left.Lit? && right.Column? ==> Represents(TypeOf(schema, right.name).value, left.literal))
    case Aggregate(_, _) => true
    case Cast(_, _) => false
  }

  predicate CastsWrapLiterals(e: LogicalExpr) {
    match e
    case Binary(left, _, right) => CastsWrapLiterals(left) && CastsWrapLiterals(right)
    case Cast(e', dt) => e'.Lit? && Represents(dt, e'.literal)
    case _ => true
  }

  /** Coercion keeps the value of every expression on every row, and each cast it
      inserts wraps a literal that narrows. */
  lemma {:induction false} CoerceKeepsValue(schema: seq<ColumnSchema>, e: LogicalExpr, row: Row)
    requires Checked(schema, e)
    ensures Eval(Coerce(schema, e), row) == Eval(e, row)
    ensures CastsWrapLiterals(Coerce(schema, e))
    ensures !e.Binary? ==> Coerce(schema, e) == e
    ensures e.Binary? ==> Coerce(schema, e).Binary?
  {
    match e
    case Binary(left, op, right) =>
      CoerceKeepsValue(schema, left, row);
      CoerceKeepsValue(schema, right, row);
    case _ =>
  }

  // ---- Constant folding ----

  function FoldBinary(left: LogicalExpr, op: BinaryOp, right: LogicalExpr): LogicalExpr {
    if left.Lit? && left.literal.Int? && right.Lit? && right.literal.Int? then
      if op.Cmp? then Lit(BoolLit(CmpHolds(op.op, left.literal.n < right.literal.n, left.literal.n == right.literal.n)))
      else Binary(left, op, right)
    else if left == Lit(BoolLit(true)) && op.And? then right
    else if left == Lit(BoolLit(false)) && op.And? then Lit(BoolLit(false))
    else if left == Lit(BoolLit(true)) && op.Or? then Lit(BoolLit(true))
    else if left == Lit(BoolLit(false)) && op.Or? then right
    else Binary(left, op, right)
  }

  /** `fold_expr` */
  function Fold(e: LogicalExpr): LogicalExpr {
    match e
    case Binary(left, op, right) => FoldBinary(Fold(left), op, Fold(right))
    case _ => e
  }

  /** Folding gives the same value wherever there is one. (`false AND x` folds to false
      even where x has no value.) */
  lemma {:induction false} FoldKeepsValue(e: LogicalExpr, row: Row)
    ensures Eval(e, row).Some? ==> Eval(Fold(e), row) == Eval(e, row)
  {
    match e
    case Binary(left, op, right) =>
      FoldKeepsValue(left, row);
      FoldKeepsValue(right, row);
      if Eval(e, row).Some? {
        assert Eval(Fold(left), row) == Eval(left, row) && Eval(Fold(right), row) == Eval(right, row);
      }
    case _ =>
  }

  lemma {:induction false} FoldIsIdempotent(e: LogicalExpr)
    ensures Fold(Fold(e)) == Fold(e)
  {
    match e
    case Binary(left, op, right) =>
      FoldIsIdempotent(left);
      FoldIsIdempotent(right);
    case _ =>
  }

  lemma {:induction false} FoldKeepsCasts(e: LogicalExpr)
    requires CastsWrapLiterals(e)
    ensures CastsWrapLiterals(Fold(e))
  {
    match e
    case Binary(left, op, right) =>
      FoldKeepsCasts(left);
      FoldKeepsCasts(right);
    case _ =>
  }

  function FoldAll(es: seq<LogicalExpr>): (folded: seq<LogicalExpr>)
    ensures |folded| == |es| && forall i :: 0 <= i < |es| ==> folded[i] == Fold(es[i])
  {
    seq(|es|, i requires 0 <= i < |es| => Fold(es[i]))
  }

  // ---- The rules, in order ----

  function CoerceNode(schema: seq<ColumnSchema>, node: LogicalPlan): LogicalPlan {
    if node.Filter? then Filter(Coerce(schema, node.condition), node.input) else node
  }

  function FoldNode(node: LogicalPlan): LogicalPlan {
    match node
    case Filter(condition, input) => Filter(Fold(condition), input)
    case Project(projections, input) => Project(FoldAll(projections), input)
    case _ => node
  }

  function EliminateNode(node: LogicalPlan): LogicalPlan {
    if node.Filter? && node.condition == Lit(BoolLit(true)) then node.input else node
  }

  function Optimize(schema: seq<ColumnSchema>, plan: LogicalPlan): LogicalPlan {
    Rewrite(EliminateNode, Rewrite(FoldNode, Rewrite(node => CoerceNode(schema, node), plan)))
  }

  lemma CoercionRefines(summary: Summary, table: seq<Row>, schema: seq<ColumnSchema>)
    ensures RuleRefines(summary, table, node => CoerceNode(schema, node), e => Checked(schema, e))
  {
    forall p: LogicalPlan | p.Filter? ==> Checked(schema, p.condition) ensures Refines(summary, table, p, CoerceNode(schema, p)) {
      if p.Filter? {
        forall row | Eval(p.condition, row).Some? ensures Eval(Coerce(schema, p.condition), row) == Eval(p.condition, row) {
          CoerceKeepsValue(schema, p.condition, row);
        }
        FilterRefines(summary, table, p.condition, Coerce(schema, p.condition), p.input);
      }
    }
  }

  lemma {:induction false} FoldedNamesAreNames(es: seq<LogicalExpr>)
    requires NamesOf(es).Some?
    ensures FoldAll(es) == es
  {
    if es != [] {
      FoldedNamesAreNames(es[..|es| - 1]);
      assert FoldAll(es) == FoldAll(es[..|es| - 1]) + [Fold(es[|es| - 1])];
      assert es == es[..|es| - 1] + [es[|es| - 1]];
    }
  }

  lemma FoldingRefines(summary: Summary, table: seq<Row>)
    ensures RuleRefines(summary, table, FoldNode, _ => true)
  {
    forall p: LogicalPlan ensures Refines(summary, table, p, FoldNode(p)) {
      if p.Filter? {
        forall row | Eval(p.condition, row).Some? ensures Eval(Fold(p.condition), row) == Eval(p.condition, row) {
          FoldKeepsValue(p.condition, row);
        }
        FilterRefines(summary, table, p.condition, Fold(p.condition), p.input);
      } else if p.Project? && NamesOf(p.projections).Some? {
        FoldedNamesAreNames(p.projections);
      }
    }
  }

  lemma {:induction false} AlwaysSelected(test: Row -> Option<bool>, rows: seq<Row>)
    requires forall row :: test(row) == Some(true)
    ensures Selected(test, rows) == Some(rows)
  {
    if rows != [] {
      AlwaysSelected(test, rows[..|rows| - 1]);
      assert rows == rows[..|rows| - 1] + [rows[|rows| - 1]];
    }
  }

  lemma EliminationRefines(summary: Summary, table: seq<Row>)
    ensures RuleRefines(summary, table, EliminateNode, _ => true)
  {
    forall p: LogicalPlan ensures Refines(summary, table, p, EliminateNode(p)) {
      if EliminateNode(p) != p && Answer(summary, p.input, table).Some? {
        AlwaysSelected(row => Truth(Eval(p.condition, row)), Answer(summary, p.input, table).value);
      }
    }
  }

  lemma {:induction false} AnyFilters(plan: LogicalPlan)
    ensures FiltersAre(_ => true, plan)
    decreases plan
  {
    if !plan.Scan? { AnyFilters(plan.input); }
  }

  /** The optimized plan gives the answer of the plan as written. */
  lemma OptimizeRefines(summary: Summary, table: seq<Row>, schema: seq<ColumnSchema>, plan: LogicalPlan)
    requires FiltersAre(e => Checked(schema, e), plan)
    ensures Refines(summary, table, plan, Optimize(schema, plan))
  {
    hide Answer, FiltersAre;
    var coerce := node => CoerceNode(schema, node);
    CoercionRefines(summary, table, schema);
    RewriteRefines(summary, table, coerce, e => Checked(schema, e), plan);
    var coerced := Rewrite(coerce, plan);
    FoldingRefines(summary, table);
    AnyFilters(coerced);
    RewriteRefines(summary, table, FoldNode, _ => true, coerced);
    var folded := Rewrite(FoldNode, coerced);
    EliminationRefines(summary, table);
    AnyFilters(folded);
    RewriteRefines(summary, table, EliminateNode, _ => true, folded);
  }
}
