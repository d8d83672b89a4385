/** Building the accumulators of a query: one per aggregate, of the column's type. */
module Builder {
  import opened Wrappers
  import opened Catalog
  import opened Expressions
  import opened LogicalPlans
  import opened GroupedTotals
  import A = Aggregates
  import Accumulators
  import H = HashAggregate

  datatype BuildError = UnknownColumn | UnsupportedType

  /** COUNT and AVG look at no type; the others need a number. */
  predicate Supported(schema: seq<ColumnSchema>, spec: AggSpec) {
    spec.func.Count? || spec.func.Avg? || (TypeOf(schema, spec.column).Some? && IsInteger(TypeOf(schema, spec.column).value))
  }

  /** An accumulator of the query: fresh, without groups, of the aggregate's kind, and
      putting its column out under the aggregate's name */
  ghost predicate BuiltFor(schema: seq<ColumnSchema>, spec: AggSpec, acc: H.Accumulator)
    reads acc.Obj()
  {
    && acc.Valid() && acc.Model() == []
    && acc.Func() == FuncOf(schema, spec.func, spec.column) && acc.OutputField() == OutputName(spec.func, spec.column)
  }

  /** The names that the accumulators format are those the plans expect. */
  lemma FieldsAgree(column: Name)
    ensures Ascii("count(") + column + Ascii(")") == OutputName(Count, column)
    ensures Ascii("sum(") + column + Ascii(")") == OutputName(Sum, column)
    ensures Ascii("avg(") + column + Ascii(")") == OutputName(Avg, column)
    ensures Ascii("min(") + column + Ascii(")") == OutputName(Min, column)
    ensures Ascii("max(") + column + Ascii(")") == OutputName(Max, column)
  {
    AsciiOfConcat("count", "(");
    AsciiOfConcat("sum", "(");
    AsciiOfConcat("avg", "(");
    AsciiOfConcat("min", "(");
    AsciiOfConcat("max", "(");
  }

  lemma AsciiOfConcat(s: string, t: string)
    ensures Ascii(s + t) == Ascii(s) + Ascii(t)
  {
  }

  /** SUM, MIN and MAX of a column of type `dt` */
  method BuildNumeric(func: AggFunc, column: Name, dt: DataType) returns (r: Result<H.Accumulator, BuildError>)
    requires !func.Count? && !func.Avg? && !IsFloat(dt)
    ensures r.Ok? <==> IsInteger(dt)
    ensures r.Err? ==> r.error == UnsupportedType
    ensures r.Ok? ==>
              && fresh(r.value.Obj()) && r.value.Valid() && r.value.Model() == [] && r.value.OutputField() == OutputName(func, column)
              && r.value.Func() == if func.Sum? then A.Sum(IsSigned(dt)) else if func.Min? then A.Min else A.Max
  {
    FieldsAgree(column);
    hide OutputName, Ascii;
    if !IsInteger(dt) {
      return Err(UnsupportedType);
    }
    if func.Sum? {
      var sum := new Accumulators.SumAccumulator(column, IsSigned(dt));
      r := Ok(H.SumBox(sum));
    } else {
      var extreme := new Accumulators.ExtremeAccumulator(column, if func.Min? then A.Min else A.Max);
      r := Ok(H.ExtremeBox(extreme));
    }
  }

  method BuildAccumulator(schema: seq<ColumnSchema>, spec: AggSpec) returns (r: Result<H.Accumulator, BuildError>)
    requires TypeOf(schema, spec.column).Some? ==> !IsFloat(TypeOf(schema, spec.column).value)
    ensures r.Ok? <==> Supported(schema, spec)
    ensures r == Err(UnknownColumn) <==> !spec.func.Count? && !spec.func.Avg? && TypeOf(schema, spec.column).None?
    ensures r.Ok? ==> fresh(r.value.Obj()) && BuiltFor(schema, spec, r.value)
  {
    FieldsAgree(spec.column);
    hide OutputName, Ascii;
    match spec.func
    case Count =>
      var count := new Accumulators.CountAccumulator(spec.column);
      r := Ok(H.CountBox(count));
    case Avg =>
      var avg := new Accumulators.AvgAccumulator(spec.column);
      r := Ok(H.AvgBox(avg));
    case _ =>
      match TypeOf(schema, spec.column)
      case None => r := Err(UnknownColumn);
      case Some(dt) => r := BuildNumeric(spec.func, spec.column, dt);
  }

  ghost predicate AllBuiltFor(schema: seq<ColumnSchema>, specs: seq<AggSpec>, accs: seq<H.Accumulator>)
    reads set j | 0 <= j < |accs| :: accs[j].Obj()
  {
    && |accs| == |specs| && (forall j :: 0 <= j < |accs| ==> BuiltFor(schema, specs[j], accs[j]))
    && forall i, j :: 0 <= i < j < |accs| ==> accs[i].Obj() != accs[j].Obj()
  }

  /** `build_accumulators` */
  method BuildAccumulators(schema: seq<ColumnSchema>, specs: seq<AggSpec>) returns (r: Result<seq<H.Accumulator>, BuildError>)
    requires forall c :: 0 <= c < |schema| ==> !IsFloat(schema[c].dataType)
    ensures r.Ok? <==> forall j :: 0 <= j < |specs| ==> Supported(schema, specs[j])
    ensures r.Ok? ==> AllBuiltFor(schema, specs, r.value) && forall j :: 0 <= j < |r.value| ==> fresh(r.value[j].Obj())
  {
    hide BuiltFor;
    var accs: seq<H.Accumulator> := [];
    for j := 0 to |specs|
      invariant AllBuiltFor(schema, specs[..j], accs) && forall i :: 0 <= i < |accs| ==> fresh(accs[i].Obj())
      invariant forall i :: 0 <= i < j ==> Supported(schema, specs[i])
    {
      NoFloatType(schema, specs[j].column);
      var acc := BuildAccumulator(schema, specs[j]);
      if acc.Err? {
        return Err(acc.error);
      }
      accs := accs + [acc.value];
    }
    assert specs[..|specs|] == specs;
    r := Ok(accs);
  }

  lemma {:induction false} NoFloatType(schema: seq<ColumnSchema>, name: Name)
    requires forall c :: 0 <= c < |schema| ==> !IsFloat(schema[c].dataType)
    ensures TypeOf(schema, name).Some? ==> !IsFloat(TypeOf(schema, name).value)
  {
    if schema != [] && schema[0].name != name {
      NoFloatType(schema[1..], name);
    }
  }
}
