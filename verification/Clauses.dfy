/** WHERE clauses as the frontend hands them over: what it accepts, how it lowers them, and
    that what comes out at run time is what the text says. */
module Clauses {
  import opened Wrappers
  import opened Catalog
  import opened Expressions
  import opened Analyzer
  import opened LogicalPlans
  import opened Lowering
  import opened TableWriter
  import opened Scans
  import opened Runtime

  /** A WHERE clause as parsed, as far as the validator lets it through */
  datatype SqlExpr = SqlColumn(name: Name) | SqlValue(literal: SqlLiteral) | SqlBinary(left: SqlExpr, op: BinaryOp, right: SqlExpr)

  /** The analyzer's checks: columns exist, and literals beside a column suit its type. */
  predicate Accepted(schema: seq<ColumnSchema>, e: SqlExpr) {
    match e
    case SqlColumn(name) => TypeOf(schema, name).Some?
    case SqlValue(_) => true
    case SqlBinary(left, _, right) =>
      && Accepted(schema, left) && Accepted(schema, right)
      && (left.SqlColumn? && right.SqlValue? ==> CheckTypeCompat(TypeOf(schema, left.name).value, right.literal).Ok?)
      && (left.SqlValue? && right.SqlColumn? ==> CheckTypeCompat(TypeOf(schema, right.name).value, left.literal).Ok?)
  }

  function LowerSql(table: Name, e: SqlExpr): LogicalExpr {
    match e
    case SqlColumn(name) => Column(table, name)
    case SqlValue(l) => Lit(LowerLiteral(l))
    case SqlBinary(left, op, right) => Binary(LowerSql(table, left), op, LowerSql(table, right))
  }

  /** No float columns, and no literal that is a float unless compared with a column */
  predicate Floatless(schema: seq<ColumnSchema>, e: SqlExpr) {
    match e
    case SqlColumn(name) => !(TypeOf(schema, name) in {Some(F32), Some(F64)})
    case SqlValue(l) => !LowerLiteral(l).FloatLit?
    case SqlBinary(left, op, right) =>
      && (Floatless(schema, left) || (op.Cmp? && left.SqlValue? && right.SqlColumn?))
      && (Floatless(schema, right) || (op.Cmp? && left.SqlColumn? && right.SqlValue?))
  }

  /** Every accepted clause without floats is covered, and a column compared with a
      literal, on either side, panics exactly for the literals that slip through the
      analyzer. */
  lemma {:induction false} AcceptedIsCovered(schema: seq<ColumnSchema>, table: Name, e: SqlExpr)
    requires Accepted(schema, e) && Floatless(schema, e)
    ensures Where(schema, LowerSql(table, e))
    ensures e.SqlBinary? && e.op.Cmp? && e.left.SqlColumn? && e.right.SqlValue? ==>
              TypeOf(schema, e.left.name).Some?
              && (FormOf(schema, LowerSql(table, e)).Panics? <==> SlipsThrough(TypeOf(schema, e.left.name).value, e.right.literal))
    ensures e.SqlBinary? && e.op.Cmp? && e.left.SqlValue? && e.right.SqlColumn? ==>
              TypeOf(schema, e.right.name).Some?
              && (FormOf(schema, LowerSql(table, e)).Panics? <==> SlipsThrough(TypeOf(schema, e.right.name).value, e.left.literal))
  {
    if e.SqlBinary? {
      if Floatless(schema, e.left) { AcceptedIsCovered(schema, table, e.left); }
      if Floatless(schema, e.right) { AcceptedIsCovered(schema, table, e.right); }
      if e.op.Cmp? && e.left.SqlColumn? && e.right.SqlValue? {
        TypedPanics(TypeOf(schema, e.left.name).value, e.right.literal);
      } else if e.op.Cmp? && e.left.SqlValue? && e.right.SqlColumn? {
        TypedPanics(TypeOf(schema, e.right.name).value, e.left.literal);
      }
    }
  }

  lemma TypedPanics(dt: DataType, l: SqlLiteral)
    requires CheckTypeCompat(dt, l).Ok? && !IsFloat(dt)
    ensures TypedForm(dt, LowerLiteral(l)).Panics? <==> SlipsThrough(dt, l)
  {
    NarrowPanicsExactlyWhen(dt, l, (_, _) => 0);
    NarrowKeepsValue(LowerLiteral(l), dt, (_, _) => 0);
  }

  // ---- What a clause says ----

  /** A literal as it is written: numbers are themselves, of whatever size. */
  function LiteralSays(l: SqlLiteral): Option<Value> {
    match l
    case Integer(n, _) => Some(Num(n))
    case Fraction(bits) => Some(Float(bits))
    case Quoted(s) => Some(Text(s))
    case Boolean(b) => Some(Flag(b))
    case SqlNull => None
  }

  ghost function ComparisonSays(op: CmpOp, x: Value, y: Value): Option<Value> {
    match (x, y)
    case (Num(a), Num(b)) => Some(Flag(NumsHold(op, a, b)))
    case (Text(a), Text(b)) => Some(Flag(TextsHold(op, a, b)))
    case (Flag(a), Flag(b)) => Some(Flag(FlagsHold(op, a, b)))
    case _ => None
  }

  /** The value of a clause on a row, straight from its text; `None` where operands do not
      go together or a column or value is missing */
  ghost function Says(e: SqlExpr, row: Row): Option<Value> {
    match e
    case SqlColumn(name) => if name in row then Some(row[name]) else None
    case SqlValue(l) => LiteralSays(l)
    case SqlBinary(left, op, right) =>
      var x, y := Says(left, row), Says(right, row);
      if x.None? || y.None? then None
      else match op
        case Cmp(c) => ComparisonSays(c, x.value, y.value)
        case And => if x.value.Flag? && y.value.Flag? then Some(Flag(x.value.b && y.value.b)) else None
        case Or => if x.value.Flag? && y.value.Flag? then Some(Flag(x.value.b || y.value.b)) else None
  }

  /** Every integer in the clause is an i64. */
  predicate IntegersFit(e: SqlExpr) {
    match e
    case SqlColumn(_) => true
    case SqlValue(l) => l.Integer? ==> l.n < 0x8000_0000_0000_0000
    case SqlBinary(left, _, right) => IntegersFit(left) && IntegersFit(right)
  }

  lemma {:induction false} LoweringSays(table: Name, e: SqlExpr, row: Row)
    requires IntegersFit(e)
    ensures Eval(LowerSql(table, e), row) == Says(e, row)
  {
    if e.SqlBinary? {
      LoweringSays(table, e.left, row);
      LoweringSays(table, e.right, row);
      var x, y := Says(e.left, row), Says(e.right, row);
      if e.op.Cmp? && x.Some? && y.Some? {
        CompareMeans(e.op.op, x.value, y.value);
      }
    }
  }

  /** An integer beyond i64 is lowered to a float, which the model compares with nothing. */
  lemma {:induction false} TooWideHasNoValue(schema: seq<ColumnSchema>, table: Name, e: SqlExpr, row: Row)
    requires Floatless(schema, e) && !IntegersFit(e)
    ensures Eval(LowerSql(table, e), row).None?
  {
    if !IntegersFit(e.left) {
      if e.left.SqlBinary? {
        TooWideHasNoValue(schema, table, e.left, row);
      } else {
        FloatsDoNotCompare(e.op, Eval(LowerSql(table, e.left), row), Eval(LowerSql(table, e.right), row));
      }
    } else {
      if e.right.SqlBinary? {
        TooWideHasNoValue(schema, table, e.right, row);
      } else {
        FloatsDoNotCompare(e.op, Eval(LowerSql(table, e.left), row), Eval(LowerSql(table, e.right), row));
      }
    }
  }

  lemma FloatsDoNotCompare(op: BinaryOp, x: Option<Value>, y: Option<Value>)
    requires (x.Some? && x.value.Float?) || (y.Some? && y.value.Float?)
    ensures ApplyTo(op, x, y).None?
  {
  }

  /** For every accepted clause without floats, lowering keeps what the text says on every
      row, unless an integer beyond i64 is compared with a u64 column; then the clause has
      no value. */
  lemma LoweringSaysExactlyWhen(schema: seq<ColumnSchema>, table: Name, e: SqlExpr, row: Row)
    requires Accepted(schema, e) && Floatless(schema, e)
    ensures Eval(LowerSql(table, e), row) == if IntegersFit(e) then Says(e, row) else None
    ensures IntegersFit(e) <==> !ComparesTooWide(schema, e)
  {
    if IntegersFit(e) {
      LoweringSays(table, e, row);
    } else {
      TooWideHasNoValue(schema, table, e, row);
    }
    TooWideIsBesideU64(schema, e);
  }

  predicate TooWide(e: SqlExpr) {
    e.SqlValue? && e.literal.Integer? && e.literal.n >= 0x8000_0000_0000_0000
  }

  /** Somewhere a u64 column is compared with an integer beyond i64. */
  predicate ComparesTooWide(schema: seq<ColumnSchema>, e: SqlExpr) {
    match e
    case SqlBinary(left, op, right) =>
      || (op.Cmp? && left.SqlColumn? && TypeOf(schema, left.name) == Some(U64) && TooWide(right))
      || (op.Cmp? && right.SqlColumn? && TypeOf(schema, right.name) == Some(U64) && TooWide(left))
      || ComparesTooWide(schema, left) || ComparesTooWide(schema, right)
    case _ => false
  }

  lemma {:induction false} TooWideIsBesideU64(schema: seq<ColumnSchema>, e: SqlExpr)
    requires Accepted(schema, e) && Floatless(schema, e)
    ensures IntegersFit(e) <==> !ComparesTooWide(schema, e)
  {
    if e.SqlBinary? {
      if e.left.SqlBinary? { TooWideIsBesideU64(schema, e.left); }
      if e.right.SqlBinary? { TooWideIsBesideU64(schema, e.right); }
    }
  }

  // ---- What a comparison on a batch says ----

  /** A literal of the column's type */
  predicate OfType(dt: DataType, l: TypedLiteral) {
    match l
    case IntOf(t, _) => IsInteger(dt) && t == dt
    case StrOf(_) => dt == Str
    case BoolOf(_) => dt == Bool
    case _ => false
  }

  /** The cell compared with the literal, as numbers, strings or bools */
  ghost predicate CellHolds(op: CmpOp, dt: DataType, cells: ColumnData, i: nat, l: TypedLiteral)
    requires i < cells.Length() && OfType(dt, l) && (dt == Str <==> cells.Strings?)
  {
    match l
    case IntOf(_, n) => NumsHold(op, cells.ns[i], n)
    case StrOf(s) => TextsHold(op, cells.ss[i], s)
    case BoolOf(b) => FlagsHold(op, cells.ns[i] != 0, b)
  }

  /** The operator with its operands exchanged */
  function Mirrored(op: CmpOp): CmpOp {
    match op
    case Eq => Eq
    case NotEq => NotEq
    case Lt => Gt
    case LtEq => GtEq
    case Gt => Lt
    case GtEq => LtEq
  }

  lemma CellCompares(op: CmpOp, dt: DataType, cells: ColumnData, i: nat, l: TypedLiteral)
    requires i < cells.Length() && OfType(dt, l) && (dt == Str <==> cells.Strings?)
    ensures ConstantValue(l).Some?
    ensures Compare(op, ValueAt(Chunk(dt, cells), i), ConstantValue(l).value) == Some(Flag(CellHolds(op, dt, cells, i, l)))
    ensures Compare(op, ConstantValue(l).value, ValueAt(Chunk(dt, cells), i)) == Some(Flag(CellHolds(Mirrored(op), dt, cells, i, l)))
  {
    var x, y := ValueAt(Chunk(dt, cells), i), ConstantValue(l).value;
    CompareMeans(op, x, y);
    CompareMeans(op, y, x);
    hide Precedes;
  }

  lemma {:induction false} ColumnIs(columns: seq<ColumnSchema>, c: nat)
    requires DistinctNames(columns) && c < |columns|
    ensures TypeOf(columns, columns[c].name) == Some(columns[c].dataType)
  {
    if c > 0 {
      assert forall i :: 0 <= i < |columns| - 1 ==> columns[1..][i] == columns[i + 1];
      ColumnIs(columns[1..], c - 1);
    }
  }

  lemma ColumnCell(columns: seq<ColumnSchema>, batch: Batch, rows: nat, c: nat, i: nat)
    requires DistinctNames(columns) && |batch| == |columns| && Rectangular(batch, rows) && c < |columns| && i < rows
    ensures EvalPhysical(ColumnRef(columns[c].name), RowAt(columns, ChunksOf(columns, batch), i))
         == Some(ValueAt(Chunk(columns[c].dataType, batch[c]), i))
  {
    hide RowAt, ValueAt;
    RowHas(columns, ChunksOf(columns, batch), i, c);
  }

  lemma ComparisonEvals(left: PhysicalExpr, op: CmpOp, right: PhysicalExpr, row: Row, x: Value, y: Value, holds: bool)
    requires EvalPhysical(left, row) == Some(x) && EvalPhysical(right, row) == Some(y) && Compare(op, x, y) == Some(Flag(holds))
    ensures Truth(EvalPhysical(Comparison(left, op, right), row)) == Some(holds)
  {
    hide Compare;
  }

  lemma LiteralsRun(columns: seq<ColumnSchema>, batch: Batch, rows: nat, c: nat, op: CmpOp, l: TypedLiteral)
    requires DistinctNames(columns) && TypedBatch(columns, batch, rows) && c < |columns| && OfType(columns[c].dataType, l)
    ensures var column, literal := ColumnRef(columns[c].name), Constant(l);
            && NoFloats(Comparison(column, op, literal)) && Runnable(columns, Comparison(column, op, literal))
            && NoFloats(Comparison(literal, op, column)) && Runnable(columns, Comparison(literal, op, column))
    ensures |batch| == |columns| && Rectangular(batch, rows) && (columns[c].dataType == Str <==> batch[c].Strings?)
    ensures ConstantValue(l).Some?
  {
    ColumnIs(columns, c);
  }

  lemma ConstantEvals(l: TypedLiteral, row: Row)
    ensures EvalPhysical(Constant(l), row) == ConstantValue(l)
  {
  }

  lemma ColumnThenLiteral(columns: seq<ColumnSchema>, batch: Batch, rows: nat, c: nat, op: CmpOp, l: TypedLiteral)
    requires DistinctNames(columns) && TypedBatch(columns, batch, rows) && c < |columns| && OfType(columns[c].dataType, l)
    ensures var r := EvaluatePredicate(columns, batch, rows, Comparison(ColumnRef(columns[c].name), op, Constant(l)));
            && r.Ok? && |r.value| == rows
            && forall i :: 0 <= i < rows ==> r.value[i] == CellHolds(op, columns[c].dataType, batch[c], i, l)
  {
    var column, literal := ColumnRef(columns[c].name), Constant(l);
    LiteralsRun(columns, batch, rows, c, op, l);
    assert batch[c].Length() == rows;
    hide *;
    RunnableGivesVerdicts(columns, batch, rows, Comparison(column, op, literal));
    forall i | 0 <= i < rows
      ensures Truth(EvalPhysical(Comparison(column, op, literal), RowAt(columns, ChunksOf(columns, batch), i)))
           == Some(CellHolds(op, columns[c].dataType, batch[c], i, l))
    {
      ColumnCell(columns, batch, rows, c, i);
      ConstantEvals(l, RowAt(columns, ChunksOf(columns, batch), i));
      CellCompares(op, columns[c].dataType, batch[c], i, l);
      ComparisonEvals(column, op, literal, RowAt(columns, ChunksOf(columns, batch), i), ValueAt(Chunk(columns[c].dataType, batch[c]), i),
                      ConstantValue(l).value, CellHolds(op, columns[c].dataType, batch[c], i, l));
    }
  }

  lemma LiteralThenColumn(columns: seq<ColumnSchema>, batch: Batch, rows: nat, c: nat, op: CmpOp, l: TypedLiteral)
    requires DistinctNames(columns) && TypedBatch(columns, batch, rows) && c < |columns| && OfType(columns[c].dataType, l)
    ensures var r := EvaluatePredicate(columns, batch, rows, Comparison(Constant(l), op, ColumnRef(columns[c].name)));
            && r.Ok? && |r.value| == rows
            && forall i :: 0 <= i < rows ==> r.value[i] == CellHolds(Mirrored(op), columns[c].dataType, batch[c], i, l)
  {
    var column, literal := ColumnRef(columns[c].name), Constant(l);
    LiteralsRun(columns, batch, rows, c, op, l);
    assert batch[c].Length() == rows;
    hide *;
    RunnableGivesVerdicts(columns, batch, rows, Comparison(literal, op, column));
    forall i | 0 <= i < rows
      ensures Truth(EvalPhysical(Comparison(literal, op, column), RowAt(columns, ChunksOf(columns, batch), i)))
           == Some(CellHolds(Mirrored(op), columns[c].dataType, batch[c], i, l))
    {
      ColumnCell(columns, batch, rows, c, i);
      ConstantEvals(l, RowAt(columns, ChunksOf(columns, batch), i));
      CellCompares(op, columns[c].dataType, batch[c], i, l);
      ComparisonEvals(literal, op, column, RowAt(columns, ChunksOf(columns, batch), i), ConstantValue(l).value,
                      ValueAt(Chunk(columns[c].dataType, batch[c]), i), CellHolds(Mirrored(op), columns[c].dataType, batch[c], i, l));
    }
  }

  /** Evaluating a comparison of a column with a literal, on either side: one verdict per
      row, the one that the cell itself has. */
  lemma ColumnAndLiteral(columns: seq<ColumnSchema>, batch: Batch, rows: nat, c: nat, op: CmpOp, l: TypedLiteral)
    requires DistinctNames(columns) && TypedBatch(columns, batch, rows) && c < |columns| && OfType(columns[c].dataType, l)
    ensures var column, literal := ColumnRef(columns[c].name), Constant(l);
            var r, m := EvaluatePredicate(columns, batch, rows, Comparison(column, op, literal)),
                        EvaluatePredicate(columns, batch, rows, Comparison(literal, op, column));
            && r.Ok? && m.Ok? && |r.value| == |m.value| == rows
            && forall i :: 0 <= i < rows ==>
                 && r.value[i] == CellHolds(op, columns[c].dataType, batch[c], i, l)
                 && m.value[i] == CellHolds(Mirrored(op), columns[c].dataType, batch[c], i, l)
  {
    hide *;
    ColumnThenLiteral(columns, batch, rows, c, op, l);
    LiteralThenColumn(columns, batch, rows, c, op, l);
  }

  // ---- What a clause on a batch says ----

  /** The kind of value a clause has on every row of a table, if it has one */
  datatype Kind = NumberKind | TextKind | FlagKind

  function KindOfType(dt: DataType): Option<Kind> {
    if IsInteger(dt) then Some(NumberKind) else if dt == Str then Some(TextKind) else if dt == Bool then Some(FlagKind) else None
  }

  function KindIn(schema: seq<ColumnSchema>, e: SqlExpr): Option<Kind> {
    match e
    case SqlColumn(name) => if TypeOf(schema, name).Some? then KindOfType(TypeOf(schema, name).value) else None
    case SqlValue(l) =>
      if l.Integer? then Some(NumberKind) else if l.Quoted? then Some(TextKind) else if l.Boolean? then Some(FlagKind) else None
    case SqlBinary(left, op, right) =>
      var x, y := KindIn(schema, left), KindIn(schema, right);
      if x.Some? && x == y && (op.Cmp? || x == Some(FlagKind)) then Some(FlagKind) else None
  }

  predicate IsKind(k: Kind, v: Value) {
    match k
    case NumberKind => v.Num?
    case TextKind => v.Text?
    case FlagKind => v.Flag?
  }

  lemma CellHasKind(columns: seq<ColumnSchema>, batch: Batch, rows: nat, c: nat, i: nat)
    requires DistinctNames(columns) && TypedBatch(columns, batch, rows) && c < |columns| && i < rows
    ensures var row := RowAt(columns, ChunksOf(columns, batch), i);
            KindOfType(columns[c].dataType).Some? && columns[c].name in row
            && IsKind(KindOfType(columns[c].dataType).value, row[columns[c].name])
  {
    RowHas(columns, ChunksOf(columns, batch), i, c);
  }

  lemma ColumnSays(schema: seq<ColumnSchema>, name: Name, columns: seq<ColumnSchema>, batch: Batch, rows: nat, i: nat)
    requires KindIn(schema, SqlColumn(name)).Some? && TypeOf(columns, name) == TypeOf(schema, name)
    requires DistinctNames(columns) && TypedBatch(columns, batch, rows) && i < rows
    ensures var said := Says(SqlColumn(name), RowAt(columns, ChunksOf(columns, batch), i));
            said.Some? && IsKind(KindIn(schema, SqlColumn(name)).value, said.value)
  {
    hide TypedBatch, RowAt;
    CellHasKind(columns, batch, rows, IndexOf(columns, name).value, i);
  }

  lemma BinarySays(schema: seq<ColumnSchema>, e: SqlExpr, row: Row)
    requires e.SqlBinary? && KindIn(schema, e).Some?
    requires Says(e.left, row).Some? && IsKind(KindIn(schema, e.left).value, Says(e.left, row).value)
    requires Says(e.right, row).Some? && IsKind(KindIn(schema, e.right).value, Says(e.right, row).value)
    ensures Says(e, row).Some? && IsKind(KindIn(schema, e).value, Says(e, row).value)
  {
  }

  /** A clause whose operands are of one kind everywhere says something of every row. */
  lemma {:induction false} KindSays(schema: seq<ColumnSchema>, table: Name, e: SqlExpr, columns: seq<ColumnSchema>,
                                    batch: Batch, rows: nat, i: nat)
    requires KindIn(schema, e).Some? && AgreeOn(columns, schema, ExprColumns(LowerSql(table, e)))
    requires DistinctNames(columns) && TypedBatch(columns, batch, rows) && i < rows
    ensures var said := Says(e, RowAt(columns, ChunksOf(columns, batch), i)); said.Some? && IsKind(KindIn(schema, e).value, said.value)
  {
    match e
    case SqlColumn(name) =>
      assert name in ExprColumns(LowerSql(table, e));
      ColumnSays(schema, name, columns, batch, rows, i);
    case SqlValue(_) =>
    case SqlBinary(left, _, right) =>
      assert AgreeOn(columns, schema, ExprColumns(LowerSql(table, left))) && AgreeOn(columns, schema, ExprColumns(LowerSql(table, right)));
      assert KindIn(schema, left).Some? && KindIn(schema, right).Some? && Rectangular(batch, rows) && |batch| == |columns|;
      hide *;
      KindSays(schema, table, left, columns, batch, rows, i);
      KindSays(schema, table, right, columns, batch, rows, i);
      BinarySays(schema, e, RowAt(columns, ChunksOf(columns, batch), i));
  }

  /** An accepted clause that runs with a verdict per row: the verdict is what the clause
      says of the row, wherever it says something. */
  lemma ClauseRuns(schema: seq<ColumnSchema>, round: Rounding, table: Name, e: SqlExpr,
                   columns: seq<ColumnSchema>, batch: Batch, rows: nat)
    requires Accepted(schema, e) && Floatless(schema, e) && IntegersFit(e)
    requires Where(schema, LowerSql(table, e)) && FormOf(schema, LowerSql(table, e)) == PredicateForm(PerRow)
    requires AgreeOn(columns, schema, ExprColumns(LowerSql(table, e)))
    requires DistinctNames(columns) && TypedBatch(columns, batch, rows) && rows > 0
    ensures PreparedCondition(schema, round, LowerSql(table, e)).Some?
    ensures var r := EvaluatePredicate(columns, batch, rows, PreparedCondition(schema, round, LowerSql(table, e)).value);
            && r.Ok? && |r.value| == rows
            && forall i :: 0 <= i < rows ==>
                 var said := Says(e, RowAt(columns, ChunksOf(columns, batch), i));
                 said.Some? ==> said == Some(Flag(r.value[i]))
  {
    var clause := LowerSql(table, e);
    FoldedIsOfForm(schema, columns, round, clause);
    var prepared := PreparedCondition(schema, round, clause).value;
    RunnableGivesVerdicts(columns, batch, rows, prepared);
    hide Says, Eval, EvalPhysical, EvaluatePredicate, LowerSql, RowAt, TypedBatch, FormOf, IsOfForm;
    forall i | 0 <= i < rows
      ensures var row := RowAt(columns, ChunksOf(columns, batch), i);
              Says(e, row).Some? ==> EvalPhysical(prepared, row) == Says(e, row)
    {
      var row := RowAt(columns, ChunksOf(columns, batch), i);
      LoweringSays(table, e, row);
      if Says(e, row).Some? {
        PreparedKeepsValue(schema, round, clause, row);
      }
    }
  }

  /** The code can answer where the text says nothing: `(FALSE AND 5) OR c = 5` joins a
      number to a bool, but folding drops it, and `c = 5` runs row by row. */
  lemma FoldingDropsWhatSaysNothing(table: Name, name: Name, row: Row)
    ensures var schema := [ColumnSchema(name, I64)];
            var five := SqlValue(Integer(5, 0));
            var e := SqlBinary(SqlBinary(SqlValue(Boolean(false)), And, five), Or, SqlBinary(SqlColumn(name), Cmp(Eq), five));
            && Accepted(schema, e) && Floatless(schema, e) && Where(schema, LowerSql(table, e))
            && FormOf(schema, LowerSql(table, e)) == PredicateForm(PerRow) && Says(e, row).None?
  {
    var schema, five := [ColumnSchema(name, I64)], SqlValue(Integer(5, 0));
    var dropped := SqlBinary(SqlValue(Boolean(false)), And, five);
    var kept := SqlBinary(SqlColumn(name), Cmp(Eq), five);
    assert TypeOf(schema, name) == Some(I64);
    assert Says(dropped, row).None?;
    assert LowerSql(table, five) == Lit(Int(5)) && LowerSql(table, dropped) == Binary(Lit(BoolLit(false)), And, Lit(Int(5)));
    assert LowerSql(table, kept) == Binary(Column(table, name), Cmp(Eq), Lit(Int(5)));
    assert Where(schema, Lit(BoolLit(false))) && Where(schema, Lit(Int(5))) && Where(schema, Column(table, name));
    assert FormOf(schema, LowerSql(table, dropped)) == LiteralForm(BoolLit(false));
    assert FormOf(schema, LowerSql(table, kept)) == PredicateForm(PerRow);
  }

  // ---- Which accepted clauses are safe ----

  /** No literal of the clause slips through the analyzer beside its column. */
  predicate NoneSlips(schema: seq<ColumnSchema>, e: SqlExpr) {
    match e
    case SqlBinary(left, op, right) =>
      && NoneSlips(schema, left) && NoneSlips(schema, right)
      && (op.Cmp? && left.SqlColumn? && right.SqlValue? && TypeOf(schema, left.name).Some? ==>
            !SlipsThrough(TypeOf(schema, left.name).value, right.literal))
      && (op.Cmp? && left.SqlValue? && right.SqlColumn? && TypeOf(schema, right.name).Some? ==>
            !SlipsThrough(TypeOf(schema, right.name).value, left.literal))
    case _ => true
  }

  lemma SlipsOrIsRepresented(dt: DataType, l: SqlLiteral)
    requires !IsFloat(dt) && CheckTypeCompat(dt, l).Ok?
    ensures Represents(dt, LowerLiteral(l)) <==> !SlipsThrough(dt, l)
  {
    NarrowPanicsExactlyWhen(dt, l, (_, _) => 0);
    NarrowKeepsValue(LowerLiteral(l), dt, (_, _) => 0);
  }

  /** An accepted clause meets what its meaning is proved from exactly if no literal slips
      through. */
  lemma {:induction false} AcceptedIsChecked(schema: seq<ColumnSchema>, table: Name, e: SqlExpr)
    requires Accepted(schema, e) && Floatless(schema, e)
    ensures Checked(schema, LowerSql(table, e)) <==> NoneSlips(schema, e)
    ensures ReadsColumns(LowerSql(table, e))
  {
    if e.SqlBinary? {
      if e.left.SqlBinary? { AcceptedIsChecked(schema, table, e.left); } else { AcceptedOperand(schema, table, e.left); }
      if e.right.SqlBinary? { AcceptedIsChecked(schema, table, e.right); } else { AcceptedOperand(schema, table, e.right); }
      if e.op.Cmp? && e.left.SqlColumn? && e.right.SqlValue? {
        SlipsOrIsRepresented(TypeOf(schema, e.left.name).value, e.right.literal);
      } else if e.op.Cmp? && e.left.SqlValue? && e.right.SqlColumn? {
        SlipsOrIsRepresented(TypeOf(schema, e.right.name).value, e.left.literal);
      }
    }
  }

  lemma AcceptedOperand(schema: seq<ColumnSchema>, table: Name, e: SqlExpr)
    requires Accepted(schema, e) && !e.SqlBinary?
    ensures Checked(schema, LowerSql(table, e)) && NoneSlips(schema, e) && ReadsColumns(LowerSql(table, e))
  {
  }

  lemma {:induction false} NoneSlipsFits(schema: seq<ColumnSchema>, e: SqlExpr)
    requires Accepted(schema, e) && Floatless(schema, e) && NoneSlips(schema, e)
    ensures IntegersFit(e)
  {
    if e.SqlBinary? {
      if e.left.SqlBinary? { NoneSlipsFits(schema, e.left); }
      if e.right.SqlBinary? { NoneSlipsFits(schema, e.right); }
    }
  }
}
