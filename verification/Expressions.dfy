/** Values, rows, and the two expression languages with what they mean on a row. An
    expression without a value on a row is one whose evaluation is an error. */
module Expressions {
  import opened Wrappers
  import opened Bytes
  import opened Catalog

  /** Floats are carried as bits and are not compared here. */
  datatype Value = Num(n: int) | Flag(b: bool) | Text(s: seq<Byte>) | Float(bits: nat)

  type Row = map<Name, Value>

  function Lookup(row: Row, name: Name): Option<Value> {
    if name in row then Some(row[name]) else None
  }

  // ---- Comparing ----

  datatype CmpOp = Eq | NotEq | Lt | LtEq | Gt | GtEq

  /** Byte-wise lexicographic order */
  predicate TextLess(a: seq<Byte>, b: seq<Byte>) {
    b != [] && (a == [] || a[0] < b[0] || (a[0] == b[0] && TextLess(a[1..], b[1..])))
  }

  function CmpHolds(op: CmpOp, less: bool, equal: bool): bool {
    match op
    case Eq => equal
    case NotEq => !equal
    case Lt => less
    case LtEq => less || equal
    case Gt => !less && !equal
    case GtEq => !less
  }

  /** Only values of one kind compare. */
  function Compare(op: CmpOp, x: Value, y: Value): Option<Value> {
    match (x, y)
    case (Num(a), Num(b)) => Some(Flag(CmpHolds(op, a < b, a == b)))
    case (Flag(a), Flag(b)) => Some(Flag(CmpHolds(op, !a && b, a == b)))
    case (Text(a), Text(b)) => Some(Flag(CmpHolds(op, TextLess(a, b), a == b)))
    case _ => None
  }

  // ---- What a comparison says ----

  /** The first place where two texts differ is after `k` bytes: there `a` ends, or has
      the smaller byte. */
  predicate PrecedesAt(a: seq<Byte>, b: seq<Byte>, k: nat) {
    k <= |a| && k < |b| && a[..k] == b[..k] && (k == |a| || a[k] < b[k])
  }

  ghost predicate Precedes(a: seq<Byte>, b: seq<Byte>) {
    exists k: nat :: PrecedesAt(a, b, k)
  }

  lemma {:induction false} TextLessPrecedes(a: seq<Byte>, b: seq<Byte>)
    ensures TextLess(a, b) ==> Precedes(a, b)
  {
    if b != [] && a == [] {
      assert PrecedesAt(a, b, 0);
    } else if a != [] && b != [] && a[0] < b[0] {
      assert PrecedesAt(a, b, 0);
    } else if TextLess(a, b) {
      TextLessPrecedes(a[1..], b[1..]);
      var k: nat :| PrecedesAt(a[1..], b[1..], k);
      assert a[..k + 1] == [a[0]] + a[1..][..k] && b[..k + 1] == [b[0]] + b[1..][..k];
      assert PrecedesAt(a, b, k + 1);
    }
  }

  lemma {:induction false} PrecedesTextLess(a: seq<Byte>, b: seq<Byte>, k: nat)
    requires PrecedesAt(a, b, k)
    ensures TextLess(a, b)
  {
    if k > 0 {
      assert a[0] == a[..k][0] == b[..k][0] == b[0];
      assert a[1..][..k - 1] == a[..k][1..] && b[1..][..k - 1] == b[..k][1..];
      PrecedesTextLess(a[1..], b[1..], k - 1);
    }
  }

  /** The order of texts is decided at their first difference; a proper prefix comes
      first. */
  lemma TextLessMeans(a: seq<Byte>, b: seq<Byte>)
    ensures TextLess(a, b) <==> Precedes(a, b)
  {
    TextLessPrecedes(a, b);
    if k: nat :| PrecedesAt(a, b, k) {
      PrecedesTextLess(a, b, k);
    }
  }

  lemma {:induction false} TextLessAtDifference(p: seq<Byte>, x: Byte, y: Byte, a: seq<Byte>, b: seq<Byte>)
    requires x != y
    ensures TextLess(p + [x] + a, p + [y] + b) <==> x < y
    ensures TextLess(p, p + [x] + a) && !TextLess(p + [x] + a, p)
  {
    if p != [] {
      assert (p + [x] + a)[1..] == p[1..] + [x] + a && (p + [y] + b)[1..] == p[1..] + [y] + b;
      TextLessAtDifference(p[1..], x, y, a, b);
    }
  }

  /** Of any two texts exactly one comes first, unless they are the same. */
  lemma {:induction false} TextsAreOrdered(a: seq<Byte>, b: seq<Byte>)
    ensures TextLess(a, b) ==> a != b && !TextLess(b, a)
    ensures TextLess(a, b) || a == b || TextLess(b, a)
  {
    if a != [] && b != [] {
      TextsAreOrdered(a[1..], b[1..]);
      assert a == [a[0]] + a[1..] && b == [b[0]] + b[1..];
    }
  }

  lemma {:induction false} TextLessIsTransitive(a: seq<Byte>, b: seq<Byte>, c: seq<Byte>)
    requires TextLess(a, b) && TextLess(b, c)
    ensures TextLess(a, c)
  {
    if a != [] && a[0] == b[0] == c[0] {
      TextLessIsTransitive(a[1..], b[1..], c[1..]);
    }
  }

  predicate NumsHold(op: CmpOp, a: int, b: int) {
    match op
    case Eq => a == b
    case NotEq => a != b
    case Lt => a < b
    case LtEq => a <= b
    case Gt => a > b
    case GtEq => a >= b
  }

  ghost predicate TextsHold(op: CmpOp, a: seq<Byte>, b: seq<Byte>) {
    match op
    case Eq => a == b
    case NotEq => a != b
    case Lt => Precedes(a, b)
    case LtEq => Precedes(a, b) || a == b
    case Gt => Precedes(b, a)
    case GtEq => Precedes(b, a) || a == b
  }

  /** false comes before true. */
  predicate FlagsHold(op: CmpOp, a: bool, b: bool) {
    match op
    case Eq => a == b
    case NotEq => a != b
    case Lt => !a && b
    case LtEq => !a || b
    case Gt => a && !b
    case GtEq => a || !b
  }

  /** Numbers compare as numbers, texts in the order of their first difference, flags with
      false first, and nothing else compares. */
  lemma CompareMeans(op: CmpOp, x: Value, y: Value)
    ensures match (x, y)
            case (Num(a), Num(b)) => Compare(op, x, y) == Some(Flag(NumsHold(op, a, b)))
            case (Text(a), Text(b)) => Compare(op, x, y) == Some(Flag(TextsHold(op, a, b)))
            case (Flag(a), Flag(b)) => Compare(op, x, y) == Some(Flag(FlagsHold(op, a, b)))
            case _ => Compare(op, x, y).None?
  {
    if x.Text? && y.Text? {
      TextLessMeans(x.s, y.s);
      TextLessMeans(y.s, x.s);
      TextsAreOrdered(x.s, y.s);
    }
    hide TextLess, Precedes;
  }

  // ---- Logical expressions ----

  datatype Literal = Int(n: int) | FloatLit(bits: nat) | StrLit(s: seq<Byte>) | BoolLit(b: bool) | Null

  datatype BinaryOp = Cmp(op: CmpOp) | And | Or

  datatype AggFunc = Count | Sum | Avg | Min | Max

  datatype LogicalExpr =
    | Column(table: Name, name: Name)
    | Lit(literal: Literal)
    | Binary(left: LogicalExpr, op: BinaryOp, right: LogicalExpr)
    | Aggregate(func: AggFunc, column: Name)
    | Cast(expr: LogicalExpr, target: DataType)

  function Ascii(s: string): Name {
    seq(|s|, i requires 0 <= i < |s| => s[i] as int % 0x80)
  }

  function FuncName(f: AggFunc): Name {
    match f
    case Count => Ascii("count")
    case Sum => Ascii("sum")
    case Avg => Ascii("avg")
    case Min => Ascii("min")
    case Max => Ascii("max")
  }

  /** The name under which an aggregate's result is found: func(column) */
  function OutputName(f: AggFunc, column: Name): Name {
    FuncName(f) + Ascii("(") + column + Ascii(")")
  }

  function ValueOf(l: Literal): Option<Value> {
    match l
    case Int(n) => Some(Num(n))
    case FloatLit(bits) => Some(Float(bits))
    case StrLit(s) => Some(Text(s))
    case BoolLit(b) => Some(Flag(b))
    case Null => None
  }

  /** The literals that a column type represents exactly */
  predicate Represents(dt: DataType, l: Literal) {
    match l
    case Int(n) => IsInteger(dt) && InRangeOf(dt, n)
    case StrLit(_) => dt == Str
    case BoolLit(_) => dt == Bool
    case _ => false
  }

  function Apply(op: BinaryOp, x: Value, y: Value): Option<Value> {
    match op
    case Cmp(c) => Compare(c, x, y)
    case And => if x.Flag? && y.Flag? then Some(Flag(x.b && y.b)) else None
    case Or => if x.Flag? && y.Flag? then Some(Flag(x.b || y.b)) else None
  }

  function ApplyTo(op: BinaryOp, x: Option<Value>, y: Option<Value>): Option<Value> {
    if x.Some? && y.Some? then Apply(op, x.value, y.value) else None
  }

  /** Both operands are always evaluated. A cast gives its literal in the target type. */
  function Eval(e: LogicalExpr, row: Row): Option<Value> {
    match e
    case Column(_, name) => Lookup(row, name)
    case Lit(l) => ValueOf(l)
    case Binary(left, op, right) => ApplyTo(op, Eval(left, row), Eval(right, row))
    case Aggregate(f, column) => Lookup(row, OutputName(f, column))
    case Cast(e', dt) => if e'.Lit? && Represents(dt, e'.literal) then ValueOf(e'.literal) else None
  }

  // ---- Physical expressions ----

  /** A literal of a column type */
  datatype TypedLiteral = IntOf(dataType: DataType, n: int) | FloatOf(dataType: DataType, bits: nat)
                        | StrOf(s: seq<Byte>) | BoolOf(b: bool) | NullOf

  datatype LogicalOp = AndOp | OrOp

  datatype PhysicalExpr =
    | ColumnRef(name: Name)
    | Constant(literal: TypedLiteral)
    | Comparison(left: PhysicalExpr, cmp: CmpOp, right: PhysicalExpr)
    | Logic(left: PhysicalExpr, op: LogicalOp, right: PhysicalExpr)

  function ConstantValue(l: TypedLiteral): Option<Value> {
    match l
    case IntOf(_, n) => Some(Num(n))
    case FloatOf(_, bits) => Some(Float(bits))
    case StrOf(s) => Some(Text(s))
    case BoolOf(b) => Some(Flag(b))
    case NullOf => None
  }

  function EvalPhysical(e: PhysicalExpr, row: Row): Option<Value> {
    match e
    case ColumnRef(name) => Lookup(row, name)
    case Constant(l) => ConstantValue(l)
    case Comparison(left, op, right) => ApplyTo(Cmp(op), EvalPhysical(left, row), EvalPhysical(right, row))
    case Logic(left, op, right) =>
      ApplyTo(if op.AndOp? then And else Or, EvalPhysical(left, row), EvalPhysical(right, row))
  }

  /** A predicate's verdict on a row */
  function Truth(v: Option<Value>): Option<bool> {
    if v.Some? && v.value.Flag? then Some(v.value.b) else None
  }
}
