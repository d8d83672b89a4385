/** Evaluating a physical predicate on a batch: one verdict per row, or an error where
    the operands are not of one type or not columns and literals. */
module Runtime {
  import opened Wrappers
  import opened Catalog
  import opened Expressions
  import opened Analyzer
  import opened LogicalPlans
  import opened Lowering
  import opened TableWriter
  import opened Scans
  import opened ZoneMapFile
  import P = PhysicalPlans

  datatype ExprError = MissingColumn | NotAPredicate | NotAnOperand | TypeMismatch | NullLiteral | LengthMismatch

  /** `ColumnarValue`: an array, or one value for all rows */
  datatype Operand = Array(dataType: DataType, values: seq<Value>) | Scalar(dataType: DataType, value: Value)

  /** The place of the first column of that name */
  function IndexOf(columns: seq<ColumnSchema>, name: Name): (i: Option<nat>)
    ensures i.Some? ==> i.value < |columns| && columns[i.value].name == name && TypeOf(columns, name) == Some(columns[i.value].dataType)
    ensures i.None? ==> TypeOf(columns, name).None?
  {
    if columns == [] then None
    else if columns[0].name == name then Some(0)
    else match IndexOf(columns[1..], name)
      case None => None
      case Some(i) => Some(i + 1)
  }

  function TypeOfLiteral(l: TypedLiteral): Option<DataType> {
    match l
    case IntOf(dt, _) => Some(dt)
    case FloatOf(dt, _) => Some(dt)
    case StrOf(_) => Some(Str)
    case BoolOf(_) => Some(Bool)
    case NullOf => None
  }

  function ArrayValues(c: Chunk): (values: seq<Value>)
    ensures |values| == c.data.Length() && forall i :: 0 <= i < |values| ==> values[i] == ValueAt(c, i)
  {
    seq(c.data.Length(), i requires 0 <= i < c.data.Length() => ValueAt(c, i))
  }

  /** `evaluate_operand` */
  function EvaluateOperand(columns: seq<ColumnSchema>, batch: Batch, e: PhysicalExpr): Result<Operand, ExprError>
    requires |batch| == |columns|
  {
    match e
    case ColumnRef(name) =>
      (match IndexOf(columns, name)
       case None => Err(MissingColumn)
       case Some(i) => Ok(Array(columns[i].dataType, ArrayValues(Chunk(columns[i].dataType, batch[i])))))
    case Constant(l) =>
      if l.NullOf? then Err(NullLiteral) else Ok(Scalar(TypeOfLiteral(l).value, ConstantValue(l).value))
    case _ => Err(NotAnOperand)
  }

  function ValueIn(o: Operand, i: nat): Value
    requires o.Array? ==> i < |o.values|
  {
    if o.Array? then o.values[i] else o.value
  }

  /** The comparison kernels: operands of one type; two scalars give one verdict. */
  function Kernel(op: CmpOp, l: Operand, r: Operand): Result<seq<bool>, ExprError>
    requires l.Array? && r.Array? ==> |l.values| == |r.values|
  {
    var n := if l.Array? then |l.values| else if r.Array? then |r.values| else 1;
    if l.dataType != r.dataType || (exists i :: 0 <= i < n && Compare(op, ValueIn(l, i), ValueIn(r, i)).None?) then Err(TypeMismatch)
    else Ok(seq(n, i requires 0 <= i < n => Truth(Compare(op, ValueIn(l, i), ValueIn(r, i))) == Some(true)))
  }

  function Combined(op: LogicalOp, l: seq<bool>, r: seq<bool>): (m: seq<bool>)
    requires |l| == |r|
    ensures |m| == |l| && forall i :: 0 <= i < |l| ==> m[i] == if op.AndOp? then l[i] && r[i] else l[i] || r[i]
  {
    seq(|l|, i requires 0 <= i < |l| => if op.AndOp? then l[i] && r[i] else l[i] || r[i])
  }

  /** `evaluate_predicate`: a bare column or literal is no predicate. */
  function EvaluatePredicate(columns: seq<ColumnSchema>, batch: Batch, rows: nat, e: PhysicalExpr): Result<seq<bool>, ExprError>
    requires |batch| == |columns| && Rectangular(batch, rows)
  {
    match e
    case Comparison(left, op, right) =>
      var l, r := EvaluateOperand(columns, batch, left), EvaluateOperand(columns, batch, right);
      if l.Err? then Err(l.error) else if r.Err? then Err(r.error) else Kernel(op, l.value, r.value)
    case Logic(left, op, right) =>
      var l, r := EvaluatePredicate(columns, batch, rows, left), EvaluatePredicate(columns, batch, rows, right);
      if l.Err? then Err(l.error)
      else if r.Err? then Err(r.error)
      else if |l.value| != |r.value| then Err(LengthMismatch)
      else Ok(Combined(op, l.value, r.value))
    case _ => Err(NotAPredicate)
  }

  // ---- When evaluation works ----

  function OperandType(columns: seq<ColumnSchema>, e: PhysicalExpr): Option<DataType> {
    match e
    case ColumnRef(name) => TypeOf(columns, name)
    case Constant(l) => TypeOfLiteral(l)
    case _ => None
  }

  /** What evaluation comes to: a verdict per row; one verdict for the whole batch;
      either of them in a batch of one row, and an error in any other; or an error */
  datatype Outcome = PerRow | PerBatch | OneRowOnly | Failing

  function Joined(a: Outcome, b: Outcome): Outcome {
    if a.Failing? || b.Failing? then Failing else if a == b then a else OneRowOnly
  }

  function OutcomeOf(columns: seq<ColumnSchema>, e: PhysicalExpr): Outcome {
    match e
    case Comparison(left, _, right) =>
      if OperandType(columns, left).None? || OperandType(columns, left) != OperandType(columns, right) then Failing
      else if left.Constant? && right.Constant? then PerBatch
      else PerRow
    case Logic(left, _, right) => Joined(OutcomeOf(columns, left), OutcomeOf(columns, right))
    case _ => Failing
  }

  /** Comparisons of a column with a column or literal of its type, under AND and OR */
  predicate Runnable(columns: seq<ColumnSchema>, e: PhysicalExpr) {
    OutcomeOf(columns, e) == PerRow
  }

  /** Arrays of the columns' types, floats aside */
  ghost predicate TypedBatch(columns: seq<ColumnSchema>, batch: Batch, rows: nat) {
    && |batch| == |columns| && Rectangular(batch, rows)
    && forall c :: 0 <= c < |columns| ==> !IsFloat(columns[c].dataType) && (columns[c].dataType == Str <==> batch[c].Strings?)
  }

  predicate NoFloats(e: PhysicalExpr) {
    match e
    case Constant(l) => !l.FloatOf? && (l.IntOf? ==> IsInteger(l.dataType))
    case Comparison(left, _, right) => NoFloats(left) && NoFloats(right)
    case Logic(left, _, right) => NoFloats(left) && NoFloats(right)
    case _ => true
  }

  predicate KindOf(dt: DataType, v: Value) {
    if dt == Str then v.Text? else if dt == Bool then v.Flag? else v.Num?
  }

  lemma OperandMeans(columns: seq<ColumnSchema>, batch: Batch, rows: nat, e: PhysicalExpr)
    requires DistinctNames(columns) && TypedBatch(columns, batch, rows) && NoFloats(e)
    ensures EvaluateOperand(columns, batch, e).Ok? <==> OperandType(columns, e).Some?
    ensures EvaluateOperand(columns, batch, e).Ok? ==>
              var o := EvaluateOperand(columns, batch, e).value;
              && Some(o.dataType) == OperandType(columns, e) && o.Scalar? == e.Constant? && (o.Array? ==> |o.values| == rows)
              && forall i :: 0 <= i < rows || (o.Scalar? && i == 0) ==> KindOf(o.dataType, ValueIn(o, i))
    ensures EvaluateOperand(columns, batch, e).Ok? ==>
              forall i :: 0 <= i < rows ==>
                EvalPhysical(e, RowAt(columns, ChunksOf(columns, batch), i)) == Some(ValueIn(EvaluateOperand(columns, batch, e).value, i))
  {
    if e.ColumnRef? && IndexOf(columns, e.name).Some? {
      var k := IndexOf(columns, e.name).value;
      forall i | 0 <= i < rows
        ensures EvalPhysical(e, RowAt(columns, ChunksOf(columns, batch), i))
             == Some(ValueAt(Chunk(columns[k].dataType, batch[k]), i))
      {
        RowHas(columns, ChunksOf(columns, batch), i, k);
      }
    }
  }

  lemma SameKindsCompare(op: CmpOp, dt: DataType, x: Value, y: Value)
    requires KindOf(dt, x) && KindOf(dt, y)
    ensures Compare(op, x, y).Some? && Compare(op, x, y).value.Flag?
  {
  }

  /** A runnable predicate gives every row of every batch its verdict. */
  lemma {:induction false} RunnableGivesVerdicts(columns: seq<ColumnSchema>, batch: Batch, rows: nat, e: PhysicalExpr)
    requires DistinctNames(columns) && TypedBatch(columns, batch, rows) && NoFloats(e) && Runnable(columns, e)
    ensures EvaluatePredicate(columns, batch, rows, e).Ok? && |EvaluatePredicate(columns, batch, rows, e).value| == rows
    ensures forall i :: 0 <= i < rows ==>
              Truth(EvalPhysical(e, RowAt(columns, ChunksOf(columns, batch), i))) == Some(EvaluatePredicate(columns, batch, rows, e).value[i])
  {
    match e
    case Comparison(left, op, right) => ComparisonRuns(columns, batch, rows, left, op, right);
    case Logic(left, op, right) =>
      RunnableGivesVerdicts(columns, batch, rows, left);
      RunnableGivesVerdicts(columns, batch, rows, right);
  }

  predicate Succeeds(o: Outcome, rows: nat) {
    o.PerRow? || o.PerBatch? || (o.OneRowOnly? && rows == 1)
  }

  /** Exactly when evaluating succeeds, and with how many verdicts */
  lemma {:induction false} RunsExactlyWhen(columns: seq<ColumnSchema>, batch: Batch, rows: nat, e: PhysicalExpr)
    requires DistinctNames(columns) && TypedBatch(columns, batch, rows) && NoFloats(e) && rows > 0
    ensures var r := EvaluatePredicate(columns, batch, rows, e);
            && (r.Ok? <==> Succeeds(OutcomeOf(columns, e), rows))
            && (r.Ok? ==> |r.value| == if OutcomeOf(columns, e).PerRow? then rows else 1)
  {
    match e
    case Comparison(left, op, right) => ComparisonRuns(columns, batch, rows, left, op, right);
    case Logic(left, op, right) =>
      RunsExactlyWhen(columns, batch, rows, left);
      RunsExactlyWhen(columns, batch, rows, right);
    case _ =>
  }

  /** Literals compared with literals: one verdict, which is that of every row */
  lemma {:induction false} PerBatchVerdict(columns: seq<ColumnSchema>, batch: Batch, rows: nat, e: PhysicalExpr, row: Row)
    requires DistinctNames(columns) && TypedBatch(columns, batch, rows) && NoFloats(e) && rows > 0 && OutcomeOf(columns, e) == PerBatch
    ensures var r := EvaluatePredicate(columns, batch, rows, e);
            r.Ok? && |r.value| == 1 && Truth(EvalPhysical(e, row)) == Some(r.value[0])
  {
    match e
    case Comparison(left, op, right) =>
      ComparisonRuns(columns, batch, rows, left, op, right);
      OperandMeans(columns, batch, rows, left);
      OperandMeans(columns, batch, rows, right);
      SameKindsCompare(op, OperandType(columns, left).value, ConstantValue(left.literal).value, ConstantValue(right.literal).value);
    case Logic(left, op, right) =>
      PerBatchVerdict(columns, batch, rows, left, row);
      PerBatchVerdict(columns, batch, rows, right, row);
  }

  ghost predicate OfKind(o: Operand, rows: nat) {
    && (o.Array? ==> |o.values| == rows)
    && forall i :: 0 <= i < rows || (o.Scalar? && i == 0) ==> KindOf(o.dataType, ValueIn(o, i))
  }

  /** On operands of one type the kernels give a verdict per row, or one for two scalars. */
  lemma KernelRuns(op: CmpOp, l: Operand, r: Operand, rows: nat)
    requires OfKind(l, rows) && OfKind(r, rows)
    ensures Kernel(op, l, r).Ok? <==> l.dataType == r.dataType
    ensures Kernel(op, l, r).Ok? ==> |Kernel(op, l, r).value| == if l.Array? || r.Array? then rows else 1
    ensures Kernel(op, l, r).Ok? && (l.Array? || r.Array?) ==>
              forall i :: 0 <= i < rows ==> Truth(Compare(op, ValueIn(l, i), ValueIn(r, i))) == Some(Kernel(op, l, r).value[i])
  {
    if l.dataType == r.dataType {
      var n := if l.Array? || r.Array? then rows else 1;
      forall i | 0 <= i < n
        ensures Compare(op, ValueIn(l, i), ValueIn(r, i)).Some? && Compare(op, ValueIn(l, i), ValueIn(r, i)).value.Flag?
      {
        SameKindsCompare(op, l.dataType, ValueIn(l, i), ValueIn(r, i));
      }
      hide Compare;
    }
  }

  lemma ComparisonRuns(columns: seq<ColumnSchema>, batch: Batch, rows: nat, left: PhysicalExpr, op: CmpOp, right: PhysicalExpr)
    requires DistinctNames(columns) && TypedBatch(columns, batch, rows) && NoFloats(left) && NoFloats(right)
    ensures var e := Comparison(left, op, right);
            var r := EvaluatePredicate(columns, batch, rows, e);
            && (r.Ok? <==> OutcomeOf(columns, e) != Failing)
            && (r.Ok? ==> |r.value| == if OutcomeOf(columns, e).PerRow? then rows else 1)
            && (Runnable(columns, e) ==>
                  forall i :: 0 <= i < rows ==> Truth(EvalPhysical(e, RowAt(columns, ChunksOf(columns, batch), i))) == Some(r.value[i]))
  {
    OperandMeans(columns, batch, rows, left);
    OperandMeans(columns, batch, rows, right);
    hide EvaluateOperand, RowAt, TypedBatch, ChunksOf, Kernel, Compare, OperandType, NoFloats;
    var l, r := EvaluateOperand(columns, batch, left), EvaluateOperand(columns, batch, right);
    if l.Ok? && r.Ok? {
      KernelRuns(op, l.value, r.value, rows);
    }
  }

  // ---- Which WHERE clauses run ----

  /** A clause without floats: columns of the table, literals, comparisons, AND and OR in
      any nesting. A literal beyond i64, which is a float, may be compared with a column. */
  predicate Where(schema: seq<ColumnSchema>, e: LogicalExpr) {
    match e
    case Column(_, name) => TypeOf(schema, name).Some? && !IsFloat(TypeOf(schema, name).value)
    case Lit(l) => !l.FloatLit?
    case Binary(left, op, right) =>
      && (Where(schema, left) || (op.Cmp? && left.Lit? && right.Column?))
      && (Where(schema, right) || (op.Cmp? && left.Column? && right.Lit?))
    case _ => false
  }

  /** The condition as the optimizer leaves it */
  function Folded(schema: seq<ColumnSchema>, e: LogicalExpr): LogicalExpr {
    Fold(Coerce(schema, e))
  }

  /** The condition as it reaches the runtime; `None` if lowering it panics */
  function PreparedCondition(schema: seq<ColumnSchema>, round: Rounding, e: LogicalExpr): Option<PhysicalExpr> {
    LowerExpr(round, Folded(schema, e))
  }

  /** What is left of a clause after coercion, folding and lowering */
  datatype Form = ColumnForm(dataType: DataType) | LiteralForm(literal: Literal) | PredicateForm(outcome: Outcome) | Panics

  function FormType(f: Form): Option<DataType> {
    match f
    case ColumnForm(dt) => Some(dt)
    case LiteralForm(l) => TypeOfLiteral(LowerLit(l))
    case _ => None
  }

  /** A column and a literal that are compared directly */
  function TypedForm(dt: DataType, l: Literal): Form {
    if Represents(dt, l) then PredicateForm(PerRow) else Panics
  }

  function ComparedForms(op: CmpOp, a: Form, b: Form): Form {
    if a.LiteralForm? && a.literal.Int? && b.LiteralForm? && b.literal.Int? then
      LiteralForm(BoolLit(CmpHolds(op, a.literal.n < b.literal.n, a.literal.n == b.literal.n)))
    else if a.Panics? || b.Panics? then Panics
    else if FormType(a).None? || FormType(a) != FormType(b) then PredicateForm(Failing)
    else PredicateForm(if a.LiteralForm? && b.LiteralForm? then PerBatch else PerRow)
  }

  function FormOutcome(f: Form): Outcome {
    if f.PredicateForm? then f.outcome else Failing
  }

  /** A constant on the left decides, or leaves the right side as it is. */
  function ConnectedForms(conjunction: bool, a: Form, b: Form): Form {
    if a == LiteralForm(BoolLit(conjunction)) then b
    else if a == LiteralForm(BoolLit(!conjunction)) then a
    else if a.Panics? || b.Panics? then Panics
    else PredicateForm(Joined(FormOutcome(a), FormOutcome(b)))
  }

  function FormOf(schema: seq<ColumnSchema>, e: LogicalExpr): Form
    requires Where(schema, e)
  {
    match e
    case Column(_, name) => ColumnForm(TypeOf(schema, name).value)
    case Lit(l) => LiteralForm(l)
    case Binary(left, op, right) =>
      if op.Cmp? && left.Column? && right.Lit? then
        assert Where(schema, left);
        TypedForm(TypeOf(schema, left.name).value, right.literal)
      else if op.Cmp? && left.Lit? && right.Column? then
        assert Where(schema, right);
        TypedForm(TypeOf(schema, right.name).value, left.literal)
      else if op.Cmp? then ComparedForms(op.op, FormOf(schema, left), FormOf(schema, right))
      else ConnectedForms(op.And?, FormOf(schema, left), FormOf(schema, right))
  }

  /** The scanned columns have the table's types. */
  predicate AgreeOn(columns: seq<ColumnSchema>, schema: seq<ColumnSchema>, names: set<Name>) {
    forall name :: name in names ==> TypeOf(columns, name) == TypeOf(schema, name)
  }

  /** A folded expression is of this form. */
  predicate IsOfForm(columns: seq<ColumnSchema>, round: Rounding, e: LogicalExpr, f: Form) {
    && (f.Panics? <==> LowerExpr(round, e).None?)
    && (f.LiteralForm? <==> e.Lit?) && (e.Lit? ==> f.literal == e.literal && !e.literal.FloatLit?)
    && (f.ColumnForm? <==> e.Column?) && (e.Column? ==> TypeOf(columns, e.name) == Some(f.dataType) && !IsFloat(f.dataType))
    && !e.Cast? && !e.Aggregate?
    && (!f.Panics? ==> CastsWrapLiterals(e))
    && (!f.Panics? ==> NoFloats(LowerExpr(round, e).value) && OutcomeOf(columns, LowerExpr(round, e).value) == FormOutcome(f))
  }

  /** A column compared directly with a literal */
  predicate Typed(e: LogicalExpr) {
    e.Binary? && e.op.Cmp? && ((e.left.Column? && e.right.Lit?) || (e.left.Lit? && e.right.Column?))
  }

  /** The one cast that coercion puts there stays. */
  lemma TypedFolds(schema: seq<ColumnSchema>, e: LogicalExpr)
    requires Where(schema, e) && Typed(e)
    ensures var column := if e.left.Column? then e.left else e.right;
            && Where(schema, column)
            && var dt := TypeOf(schema, column.name).value;
               Folded(schema, e) == if e.left.Column? then Binary(column, e.op, Cast(e.right, dt)) else Binary(Cast(e.left, dt), e.op, column)
  {
    var column := if e.left.Column? then e.left else e.right;
    assert Where(schema, column);
    var dt := TypeOf(schema, column.name).value;
    assert Coerce(schema, e.left) == e.left && Coerce(schema, e.right) == e.right;
    var coerced := if e.left.Column? then Binary(column, e.op, Cast(e.right, dt)) else Binary(Cast(e.left, dt), e.op, column);
    assert Coerce(schema, e) == coerced && Fold(coerced) == coerced;
  }

  lemma TypedComparison(schema: seq<ColumnSchema>, columns: seq<ColumnSchema>, round: Rounding, e: LogicalExpr)
    requires Where(schema, e) && AgreeOn(columns, schema, ExprColumns(e)) && Typed(e)
    ensures IsOfForm(columns, round, Folded(schema, e), FormOf(schema, e))
  {
    TypedFolds(schema, e);
    var column, literal := if e.left.Column? then e.left else e.right, if e.left.Column? then e.right else e.left;
    var dt := TypeOf(schema, column.name).value;
    assert column.name in ExprColumns(e);
    NarrowKeepsValue(literal.literal, dt, round);
    assert LowerExpr(round, Cast(literal, dt)).Some? <==> Represents(dt, literal.literal);
  }

  lemma ComparedIsOfForm(columns: seq<ColumnSchema>, round: Rounding, left: LogicalExpr, op: CmpOp, right: LogicalExpr, a: Form, b: Form)
    requires IsOfForm(columns, round, left, a) && IsOfForm(columns, round, right, b)
    ensures IsOfForm(columns, round, FoldBinary(left, Cmp(op), right), ComparedForms(op, a, b))
  {
    if !a.Panics? && !b.Panics? {
      OperandForm(columns, round, left, a);
      OperandForm(columns, round, right, b);
    }
  }

  lemma OperandForm(columns: seq<ColumnSchema>, round: Rounding, e: LogicalExpr, f: Form)
    requires IsOfForm(columns, round, e, f) && !f.Panics?
    ensures OperandType(columns, LowerExpr(round, e).value) == FormType(f)
    ensures LowerExpr(round, e).value.Constant? <==> f.LiteralForm?
  {
  }

  lemma ConnectedIsOfForm(columns: seq<ColumnSchema>, round: Rounding, left: LogicalExpr, op: BinaryOp, right: LogicalExpr, a: Form, b: Form)
    requires IsOfForm(columns, round, left, a) && IsOfForm(columns, round, right, b) && !op.Cmp?
    ensures IsOfForm(columns, round, FoldBinary(left, op, right), ConnectedForms(op.And?, a, b))
  {
  }

  lemma {:induction false} FoldedIsOfForm(schema: seq<ColumnSchema>, columns: seq<ColumnSchema>, round: Rounding, e: LogicalExpr)
    requires Where(schema, e) && AgreeOn(columns, schema, ExprColumns(e))
    ensures IsOfForm(columns, round, Folded(schema, e), FormOf(schema, e))
  {
    if e.Binary? {
      var left, op, right := e.left, e.op, e.right;
      if Typed(e) {
        TypedComparison(schema, columns, round, e);
      } else {
        FoldedIsOfForm(schema, columns, round, left);
        FoldedIsOfForm(schema, columns, round, right);
        FoldedBinary(schema, e);
        hide Coerce, Fold, FoldBinary, Folded, IsOfForm;
        if op.Cmp? {
          ComparedIsOfForm(columns, round, Folded(schema, left), op.op, Folded(schema, right), FormOf(schema, left), FormOf(schema, right));
        } else {
          ConnectedIsOfForm(columns, round, Folded(schema, left), op, Folded(schema, right), FormOf(schema, left), FormOf(schema, right));
        }
      }
    }
  }

  /** Coercion looks at columns and literals, which it leaves alone. */
  lemma FoldedBinary(schema: seq<ColumnSchema>, e: LogicalExpr)
    requires e.Binary? && Where(schema, e) && !Typed(e)
    ensures Folded(schema, e) == FoldBinary(Folded(schema, e.left), e.op, Folded(schema, e.right))
  {
    assert e.op.Cmp? ==> (Coerce(schema, e.left).Column? <==> e.left.Column?) && (Coerce(schema, e.left).Lit? <==> e.left.Lit?);
    assert e.op.Cmp? ==> (Coerce(schema, e.right).Column? <==> e.right.Column?) && (Coerce(schema, e.right).Lit? <==> e.right.Lit?);
  }

  /** Every clause without floats, on every batch with rows: preparing it panics, or the
      filter is dropped, or it is evaluated with verdicts or an error, exactly as its
      form says. */
  lemma WhereRunsExactlyWhen(schema: seq<ColumnSchema>, round: Rounding, e: LogicalExpr,
                             columns: seq<ColumnSchema>, batch: Batch, rows: nat)
    requires Where(schema, e) && AgreeOn(columns, schema, ExprColumns(e))
    requires DistinctNames(columns) && TypedBatch(columns, batch, rows) && rows > 0
    ensures FormOf(schema, e).Panics? <==> PreparedCondition(schema, round, e).None?
    ensures FormOf(schema, e) == LiteralForm(BoolLit(true)) <==> Folded(schema, e) == Lit(BoolLit(true))
    ensures !FormOf(schema, e).Panics? ==>
              var o := FormOutcome(FormOf(schema, e));
              var r := EvaluatePredicate(columns, batch, rows, PreparedCondition(schema, round, e).value);
              && (r.Ok? <==> Succeeds(o, rows))
              && (r.Ok? ==> |r.value| == if o.PerRow? then rows else 1)
  {
    FoldedIsOfForm(schema, columns, round, e);
    if !FormOf(schema, e).Panics? {
      RunsExactlyWhen(columns, batch, rows, PreparedCondition(schema, round, e).value);
    }
  }

  /** Where the clause has a value on a row, what reaches the runtime has the same. */
  lemma {:induction false} PreparedKeepsValue(schema: seq<ColumnSchema>, round: Rounding, e: LogicalExpr, row: Row)
    requires Where(schema, e) && !FormOf(schema, e).Panics? && Eval(e, row).Some?
    ensures PreparedCondition(schema, round, e).Some?
    ensures EvalPhysical(PreparedCondition(schema, round, e).value, row) == Eval(e, row)
  {
    FoldedIsOfForm(schema, schema, round, e);
    FoldedKeepsValue(schema, e, row);
    LowerKeepsValue(round, Folded(schema, e), row);
  }

  lemma {:induction false} FoldedKeepsValue(schema: seq<ColumnSchema>, e: LogicalExpr, row: Row)
    requires Where(schema, e) && !FormOf(schema, e).Panics? && Eval(e, row).Some?
    ensures Eval(Folded(schema, e), row) == Eval(e, row)
  {
    if Typed(e) {
      TypedFolds(schema, e);
      assert Eval(e.left, row).Some? && Eval(e.right, row).Some?;
    } else if e.Binary? {
      FoldedBinary(schema, e);
      FoldedIsOfForm(schema, schema, (_, _) => 0, e.left);
      if !FormOf(schema, e.left).Panics? { FoldedKeepsValue(schema, e.left, row); }
      if !FormOf(schema, e.right).Panics? { FoldedKeepsValue(schema, e.right, row); }
      var a, b := FormOf(schema, e.left), FormOf(schema, e.right);
      assert FormOf(schema, e) == if e.op.Cmp? then ComparedForms(e.op.op, a, b) else ConnectedForms(e.op.And?, a, b);
      hide Coerce, Fold, Folded, Where, FormOf, LowerExpr, OutcomeOf, NoFloats, CastsWrapLiterals, Joined, FormType, Compare;
      FoldBinaryKeepsValue(Folded(schema, e.left), e.op, Folded(schema, e.right), Eval(e.left, row), Eval(e.right, row), row);
    }
  }

  lemma FoldBinaryKeepsValue(left: LogicalExpr, op: BinaryOp, right: LogicalExpr, x: Option<Value>, y: Option<Value>, row: Row)
    requires ApplyTo(op, x, y).Some?
    requires Eval(left, row) == x
    requires Eval(right, row) == y || (op.And? && left == Lit(BoolLit(false))) || (op.Or? && left == Lit(BoolLit(true)))
    ensures Eval(FoldBinary(left, op, right), row) == ApplyTo(op, x, y)
  {
  }

  // ---- Clauses that disappoint ----

  /** `c < 5 AND 1 = 1` and `1 = 2` have a verdict on every row, yet fail on every batch. */
  lemma ConstantsThatFail(schema: seq<ColumnSchema>, round: Rounding, table: Name, c: Name, n: int,
                          columns: seq<ColumnSchema>, batch: Batch, rows: nat)
    requires TypeOf(schema, c) == TypeOf(columns, c) == Some(I64)
    requires DistinctNames(columns) && TypedBatch(columns, batch, rows) && rows > 0
    ensures var less := Binary(Column(table, c), Cmp(Lt), Lit(Int(5)));
            var same, other := Binary(Lit(Int(1)), Cmp(Eq), Lit(Int(1))), Binary(Lit(Int(1)), Cmp(Eq), Lit(Int(2)));
            && Truth(Eval(Binary(less, And, same), map[c := Num(n)])) == Some(n < 5)
            && Truth(Eval(other, map[c := Num(n)])) == Some(false)
            && Fails(schema, round, Binary(less, And, same), columns, batch, rows)
            && Fails(schema, round, other, columns, batch, rows)
  {
    var other := Binary(Lit(Int(1)), Cmp(Eq), Lit(Int(2)));
    IntegersForm(schema, 1, 2, map[c := Num(n)]);
    LessAndSameForm(schema, table, c, n);
    hide EvaluatePredicate, TypedBatch, Folded, LowerExpr, Eval, FormOf, Where, ExprColumns, TypeOf;
    WhereRunsExactlyWhen(schema, round, Binary(Binary(Column(table, c), Cmp(Lt), Lit(Int(5))), And, Binary(Lit(Int(1)), Cmp(Eq), Lit(Int(1)))),
                         columns, batch, rows);
    WhereRunsExactlyWhen(schema, round, other, columns, batch, rows);
  }

  lemma LessAndSameForm(schema: seq<ColumnSchema>, table: Name, c: Name, n: int)
    requires TypeOf(schema, c) == Some(I64)
    ensures var less, same := Binary(Column(table, c), Cmp(Lt), Lit(Int(5))), Binary(Lit(Int(1)), Cmp(Eq), Lit(Int(1)));
            var e := Binary(less, And, same);
            && Where(schema, e) && ExprColumns(e) == {c} && Eval(e, map[c := Num(n)]) == Some(Flag(n < 5))
            && FormOf(schema, e) == PredicateForm(Failing)
  {
    LessThanForm(schema, table, c, 5, n);
    IntegersForm(schema, 1, 1, map[c := Num(n)]);
  }

  lemma LessThanForm(schema: seq<ColumnSchema>, table: Name, c: Name, bound: nat, n: int)
    requires TypeOf(schema, c) == Some(I64) && bound < 0x8000_0000_0000_0000
    ensures var less := Binary(Column(table, c), Cmp(Lt), Lit(Int(bound)));
            && Where(schema, less) && FormOf(schema, less) == PredicateForm(PerRow) && ExprColumns(less) == {c}
            && Eval(less, map[c := Num(n)]) == Some(Flag(n < bound))
  {
    var row: Row := map[c := Num(n)];
    var column := Column(table, c);
    assert Where(schema, column) && Eval(column, row) == Some(Num(n)) && Eval(Lit(Int(bound)), row) == Some(Num(bound));
    assert ExprColumns(column) == {c} && ExprColumns(Lit(Int(bound))) == {};
  }

  lemma IntegersForm(schema: seq<ColumnSchema>, x: int, y: int, row: Row)
    ensures var e := Binary(Lit(Int(x)), Cmp(Eq), Lit(Int(y)));
            && Where(schema, e) && FormOf(schema, e) == LiteralForm(BoolLit(x == y)) && ExprColumns(e) == {}
            && Eval(e, row) == Some(Flag(x == y))
  {
    assert Where(schema, Lit(Int(x))) && Where(schema, Lit(Int(y)));
    assert FormOf(schema, Lit(Int(x))) == LiteralForm(Int(x)) && FormOf(schema, Lit(Int(y))) == LiteralForm(Int(y));
    assert Eval(Lit(Int(x)), row) == Some(Num(x)) && Eval(Lit(Int(y)), row) == Some(Num(y));
    assert ExprColumns(Lit(Int(x))) == {} && ExprColumns(Lit(Int(y))) == {};
  }

  predicate Fails(schema: seq<ColumnSchema>, round: Rounding, e: LogicalExpr, columns: seq<ColumnSchema>, batch: Batch, rows: nat)
    requires |batch| == |columns| && Rectangular(batch, rows)
  {
    && PreparedCondition(schema, round, e).Some?
    && EvaluatePredicate(columns, batch, rows, PreparedCondition(schema, round, e).value).Err?
  }

  /** So do `a = b` for columns of two integer types, and a bool column on its own. */
  lemma TypesThatFail(schema: seq<ColumnSchema>, round: Rounding, table: Name, a: Name, b: Name, flag: Name, x: int, y: int, v: bool,
                      columns: seq<ColumnSchema>, batch: Batch, rows: nat)
    requires TypeOf(schema, a) == TypeOf(columns, a) == Some(I32) && TypeOf(schema, b) == TypeOf(columns, b) == Some(I64)
    requires TypeOf(schema, flag) == TypeOf(columns, flag) == Some(Bool)
    requires DistinctNames(columns) && TypedBatch(columns, batch, rows) && rows > 0
    ensures var row: Row := map[a := Num(x), b := Num(y), flag := Flag(v)];
            var equal, bare := Binary(Column(table, a), Cmp(Eq), Column(table, b)), Column(table, flag);
            && Truth(Eval(equal, row)) == Some(x == y) && Truth(Eval(bare, row)) == Some(v)
            && Fails(schema, round, equal, columns, batch, rows) && Fails(schema, round, bare, columns, batch, rows)
  {
    var row: Row := map[a := Num(x), b := Num(y), flag := Flag(v)];
    var left, right, bare := Column(table, a), Column(table, b), Column(table, flag);
    assert Eval(left, row) == Some(Num(x)) && Eval(right, row) == Some(Num(y)) && Eval(bare, row) == Some(Flag(v));
    hide EvaluatePredicate, TypedBatch, Folded, LowerExpr;
    assert Where(schema, left) && Where(schema, right) && Where(schema, bare);
    assert FormOf(schema, left) == ColumnForm(I32) && FormOf(schema, right) == ColumnForm(I64);
    WhereRunsExactlyWhen(schema, round, Binary(left, Cmp(Eq), right), columns, batch, rows);
    WhereRunsExactlyWhen(schema, round, bare, columns, batch, rows);
  }

  // ---- Clauses that never skip a part ----

  predicate NoConnective(e: LogicalExpr) {
    e.Binary? ==> e.op.Cmp? && NoConnective(e.left) && NoConnective(e.right)
  }

  /** No AND or OR inside a comparison: SQL needs parentheses for that, and the
      validator rejects those. */
  predicate PlainComparisons(e: LogicalExpr) {
    e.Binary? ==>
      if e.op.Cmp? then NoConnective(e.left) && NoConnective(e.right) else PlainComparisons(e.left) && PlainComparisons(e.right)
  }

  /** No column of 64-bit integers */
  predicate NarrowColumns(schema: seq<ColumnSchema>, e: LogicalExpr) {
    forall name :: name in ExprColumns(e) ==> TypeOf(schema, name) != Some(I64) && TypeOf(schema, name) != Some(U64)
  }

  /** Without connectives, folding yields a column or an integer only from itself. */
  lemma FoldedOperand(schema: seq<ColumnSchema>, e: LogicalExpr)
    requires Where(schema, e) && NoConnective(e)
    ensures Folded(schema, e).Column? ==> e.Column?
    ensures Folded(schema, e) == e || Folded(schema, e).Binary? || Folded(schema, e) in {Lit(BoolLit(true)), Lit(BoolLit(false))}
  {
    if Typed(e) {
      TypedFolds(schema, e);
    } else if e.Binary? {
      FoldedBinary(schema, e);
    }
  }

  /** An integer constant of a 64-bit type */
  predicate WideConstant(e: PhysicalExpr) {
    e.Constant? && e.literal.IntOf? && (e.literal.dataType == I64 || e.literal.dataType == U64)
  }

  lemma SkippingNeedsWideConstant(e: PhysicalExpr, zones: ZoneMap)
    requires e.Comparison? && !(e.left.ColumnRef? && WideConstant(e.right))
    ensures !P.CanSkip(e, zones)
  {
  }

  /** A comparison that coercion leaves alone does not come to compare a column with an
      integer either. */
  lemma UntypedNeverSkips(schema: seq<ColumnSchema>, round: Rounding, e: LogicalExpr, zones: ZoneMap)
    requires Where(schema, e) && e.Binary? && e.op.Cmp? && !Typed(e) && NoConnective(e) && PreparedCondition(schema, round, e).Some?
    ensures !P.CanSkip(PreparedCondition(schema, round, e).value, zones)
  {
    FoldedBinary(schema, e);
    FoldedOperand(schema, e.left);
    FoldedOperand(schema, e.right);
    var left, right := Folded(schema, e.left), Folded(schema, e.right);
    assert Where(schema, e.left) && Where(schema, e.right);
    hide Folded, Coerce, Fold, P.CanSkip;
    if !FoldBinary(left, e.op, right).Lit? {
      assert PreparedCondition(schema, round, e).value
          == Comparison(LowerExpr(round, left).value, e.op.op, LowerExpr(round, right).value);
      assert LowerExpr(round, left).value.ColumnRef? ==> e.left.Column?;
      assert WideConstant(LowerExpr(round, right).value) ==> e.right.Lit?;
      SkippingNeedsWideConstant(PreparedCondition(schema, round, e).value, zones);
    } else {
      LiteralNeverSkips(FoldBinary(left, e.op, right).literal, zones);
    }
  }

  lemma LiteralNeverSkips(l: Literal, zones: ZoneMap)
    ensures !P.CanSkip(Constant(LowerLit(l)), zones)
  {
  }

  lemma NarrowColumn(schema: seq<ColumnSchema>, e: LogicalExpr, name: Name)
    requires NarrowColumns(schema, e) && name in ExprColumns(e)
    ensures TypeOf(schema, name) != Some(I64) && TypeOf(schema, name) != Some(U64)
  {
  }

  lemma CastIsOfItsType(round: Rounding, literal: Literal, dt: DataType)
    requires LowerExpr(round, Cast(Lit(literal), dt)).Some? && dt != I64 && dt != U64
    ensures var c := LowerExpr(round, Cast(Lit(literal), dt)).value; c.Constant? && !WideConstant(c)
  {
  }

  /** Coercion gives the literal the type of the column. */
  lemma TypedNeverSkips(schema: seq<ColumnSchema>, round: Rounding, e: LogicalExpr, zones: ZoneMap)
    requires Where(schema, e) && Typed(e) && NarrowColumns(schema, e) && PreparedCondition(schema, round, e).Some?
    ensures !P.CanSkip(PreparedCondition(schema, round, e).value, zones)
  {
    TypedFolds(schema, e);
    var left := e.left.Column?;
    var column, literal := if left then e.left else e.right, if left then e.right else e.left;
    var dt := TypeOf(schema, column.name).value;
    assert column.name in ExprColumns(e);
    hide NarrowColumns, Folded, Coerce, Fold, TypeOf, NarrowLiteral, P.CanSkip, ExprColumns, Where;
    NarrowColumn(schema, e, column.name);
    CastIsOfItsType(round, literal.literal, dt);
    SkippingNeedsWideConstant(PreparedCondition(schema, round, e).value, zones);
  }

  lemma ConnectiveNeverSkips(schema: seq<ColumnSchema>, round: Rounding, e: LogicalExpr, zones: ZoneMap)
    requires Where(schema, e) && e.Binary? && !e.op.Cmp? && PreparedCondition(schema, round, e).Some?
    requires PreparedCondition(schema, round, e.left).Some? ==> !P.CanSkip(PreparedCondition(schema, round, e.left).value, zones)
    requires PreparedCondition(schema, round, e.right).Some? ==> !P.CanSkip(PreparedCondition(schema, round, e.right).value, zones)
    ensures !P.CanSkip(PreparedCondition(schema, round, e).value, zones)
  {
    FoldedBinary(schema, e);
    hide Folded, NarrowLiteral;
    var left, right := Folded(schema, e.left), Folded(schema, e.right);
    var folded := FoldBinary(left, e.op, right);
    assert folded == right || folded.Lit? || folded == Binary(left, e.op, right);
  }

  /** Comparisons on columns narrower than 64 bits rule out no part: coercion gives the
      literal the column's type, and skipping looks at 64-bit literals alone. */
  lemma {:induction false} NarrowClausesNeverSkip(schema: seq<ColumnSchema>, round: Rounding, e: LogicalExpr, zones: ZoneMap)
    requires Where(schema, e) && PlainComparisons(e) && NarrowColumns(schema, e) && PreparedCondition(schema, round, e).Some?
    ensures !P.CanSkip(PreparedCondition(schema, round, e).value, zones)
  {
    if Typed(e) {
      TypedNeverSkips(schema, round, e, zones);
    } else if e.Binary? {
      if e.op.Cmp? {
        UntypedNeverSkips(schema, round, e, zones);
      } else {
        assert Where(schema, e.left) && Where(schema, e.right) && PlainComparisons(e.left) && PlainComparisons(e.right);
        assert NarrowColumns(schema, e.left) && NarrowColumns(schema, e.right);
        hide *;
        if PreparedCondition(schema, round, e.left).Some? { NarrowClausesNeverSkip(schema, round, e.left, zones); }
        if PreparedCondition(schema, round, e.right).Some? { NarrowClausesNeverSkip(schema, round, e.right, zones); }
        ConnectiveNeverSkips(schema, round, e, zones);
      }
    }
  }
}
