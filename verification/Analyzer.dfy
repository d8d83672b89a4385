/** From a literal in the SQL text to a literal of a column's type: the analyzer's check,
    lowering to the logical plan, and narrowing in the physical plan, which panics on
    literals the analyzer should have rejected. */
module Analyzer {
  import opened Wrappers
  import opened Bytes
  import opened Catalog
  import opened Expressions

  /** A literal as parsed: a number is an integer (the validator has rejected signs) or
      has a fraction or an exponent, and then stands for the float `bits`. */
  datatype SqlLiteral = Integer(n: nat, asFloat: nat) | Fraction(asFloat: nat) | Quoted(s: seq<Byte>) | Boolean(b: bool) | SqlNull

  datatype TypeError = NumberForNonNumeric | StringForNumeric | NotAnInteger | OutOfRange

  const I64_MAX: int := 0x7FFF_FFFF_FFFF_FFFF
  const I128_MAX: int := 0x7FFF_FFFF_FFFF_FFFF_FFFF_FFFF_FFFF_FFFF

  predicate IsNumeric(dt: DataType) { IsInteger(dt) || IsFloat(dt) }

  /** `check_type_compat` */
  function CheckTypeCompat(dt: DataType, l: SqlLiteral): Result<(), TypeError> {
    if (l.Integer? || l.Fraction?) && !IsNumeric(dt) then Err(NumberForNonNumeric)
    else if l.Quoted? && IsNumeric(dt) then Err(StringForNumeric)
    else if (l.Integer? || l.Fraction?) && IsInteger(dt) then
      if l.Fraction? || l.n > I128_MAX then Err(NotAnInteger)
      else if !InRangeOf(dt, l.n) then Err(OutOfRange)
      else Ok(())
    else Ok(())
  }

  /** `lower_literal`: an i64 if it parses as one, else a float */
  function LowerLiteral(l: SqlLiteral): Literal {
    match l
    case Integer(n, asFloat) => if n <= I64_MAX then Int(n) else FloatLit(asFloat)
    case Fraction(asFloat) => FloatLit(asFloat)
    case Quoted(s) => StrLit(s)
    case Boolean(b) => BoolLit(b)
    case SqlNull => Null
  }

  /** `narrow_literal`; `None` where it panics. Rounding to a float type is `asFloat`. */
  function NarrowLiteral(l: Literal, dt: DataType, asFloat: (DataType, Literal) -> nat): Option<TypedLiteral> {
    match l
    case Int(n) =>
      if IsInteger(dt) then (if InRangeOf(dt, n) then Some(IntOf(dt, n)) else None)
      else if IsFloat(dt) then Some(FloatOf(dt, asFloat(dt, l)))
      else None
    case FloatLit(_) => if IsFloat(dt) then Some(FloatOf(dt, asFloat(dt, l))) else None
    case StrLit(s) => if dt == Str then Some(StrOf(s)) else None
    case BoolLit(b) => if dt == Bool then Some(BoolOf(b)) else None
    case Null => None
  }

  /** The literals that pass the analyzer and yet cannot be narrowed */
  predicate SlipsThrough(dt: DataType, l: SqlLiteral) {
    match l
    case Integer(n, _) => dt == U64 && n > I64_MAX
    case Fraction(_) => false
    case Quoted(_) => dt == Bool
    case Boolean(_) => dt != Bool
    case SqlNull => true
  }

  /** The value of the column's type that the literal's text stands for, if there is one */
  function WrittenAs(dt: DataType, l: SqlLiteral): Option<TypedLiteral> {
    match l
    case Integer(n, _) => if IsInteger(dt) && PrimitiveOf(dt).InRange(n) then Some(IntOf(dt, n)) else None
    case Fraction(_) => None
    case Quoted(s) => if dt == Str then Some(StrOf(s)) else None
    case Boolean(b) => if dt == Bool then Some(BoolOf(b)) else None
    case SqlNull => None
  }

  lemma RangesAgree(dt: DataType, n: int)
    requires IsInteger(dt)
    ensures InRangeOf(dt, n) <==> PrimitiveOf(dt).InRange(n)
  {
    Pow256Values();
  }

  /** On columns other than floats the analyzer accepts every literal that stands for a
      value of the column, beside those that slip through; what reaches the runtime is
      that value. */
  lemma AcceptedIsWhatItSays(dt: DataType, l: SqlLiteral, asFloat: (DataType, Literal) -> nat)
    requires !IsFloat(dt)
    ensures CheckTypeCompat(dt, l).Ok? <==> WrittenAs(dt, l).Some? || (!l.Integer? && SlipsThrough(dt, l))
    ensures CheckTypeCompat(dt, l).Ok? && !SlipsThrough(dt, l) ==>
              NarrowLiteral(LowerLiteral(l), dt, asFloat) == WrittenAs(dt, l)
  {
    if l.Integer? && IsInteger(dt) {
      RangesAgree(dt, l.n);
      assert dt != U64 ==> MaxOf(dt) <= I64_MAX;
    }
  }

  /** A float column takes every number, but no string; the number arrives as the float
      that the model leaves to `asFloat`. */
  lemma FloatColumnsTakeNumbers(dt: DataType, l: SqlLiteral, asFloat: (DataType, Literal) -> nat)
    requires IsFloat(dt)
    ensures CheckTypeCompat(dt, l).Ok? <==> !l.Quoted?
    ensures l.Integer? ==>
              NarrowLiteral(LowerLiteral(l), dt, asFloat)
              == Some(FloatOf(dt, asFloat(dt, if l.n < 0x8000_0000_0000_0000 then Int(l.n) else FloatLit(l.asFloat))))
    ensures l.Fraction? ==> NarrowLiteral(LowerLiteral(l), dt, asFloat) == Some(FloatOf(dt, asFloat(dt, FloatLit(l.asFloat))))
  {
  }

  /** An accepted literal makes narrowing panic exactly if it is a boolean for another
      column type, a string for a boolean column, NULL, or an integer beyond i64 for a
      u64 column. */
  lemma NarrowPanicsExactlyWhen(dt: DataType, l: SqlLiteral, asFloat: (DataType, Literal) -> nat)
    requires CheckTypeCompat(dt, l).Ok?
    ensures NarrowLiteral(LowerLiteral(l), dt, asFloat).None? <==> SlipsThrough(dt, l)
  {
    match l
    case Integer(n, _) => assert IsInteger(dt) && dt != U64 ==> MaxOf(dt) <= I64_MAX;
    case _ =>
  }

  /** Narrowing keeps the value, and on non-float columns succeeds exactly for the
      literals the type represents. */
  lemma NarrowKeepsValue(l: Literal, dt: DataType, asFloat: (DataType, Literal) -> nat)
    requires !IsFloat(dt)
    ensures NarrowLiteral(l, dt, asFloat).Some? <==> Represents(dt, l)
    ensures Represents(dt, l) ==> ConstantValue(NarrowLiteral(l, dt, asFloat).value) == ValueOf(l)
  {
  }

  /** 1 << 63 compared with a u64 column is accepted and then panics. */
  lemma AcceptedLiteralPanics(asFloat: (DataType, Literal) -> nat)
    ensures var l := Integer(0x8000_0000_0000_0000, 0);
            CheckTypeCompat(U64, l).Ok? && NarrowLiteral(LowerLiteral(l), U64, asFloat).None?
  {
  }
}
