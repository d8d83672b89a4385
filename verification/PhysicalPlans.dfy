/** Physical plans, what they answer over parts with zone maps, and the physical rules:
    elimination of true filters and pushdown of predicates to a scan that skips parts. */
module PhysicalPlans {
  import opened Wrappers
  import opened Codecs
  import opened Catalog
  import opened Expressions
  import opened LogicalPlans
  import opened ZoneMapFile

  datatype PhysicalPlan =
    | FullScan(table: Name, columns: set<Name>)
    | ZoneMapScan(table: Name, columns: set<Name>, skip: PhysicalExpr)
    | FilterRows(condition: PhysicalExpr, input: PhysicalPlan)
    | ProjectRows(projections: seq<PhysicalExpr>, input: PhysicalPlan)
    | AggregateRows(groupBy: seq<PhysicalExpr>, aggregates: seq<AggSpec>, input: PhysicalPlan)
    | LimitRows(limit: nat, input: PhysicalPlan)

  // ---- Zone maps and skipping ----

  const SIGNED: Primitive := Primitive.Int(true, 8)
  const UNSIGNED: Primitive := Primitive.Int(false, 8)

  /** `cmp_can_skip_*` */
  predicate CmpCanSkip(op: CmpOp, min: int, max: int, v: int) {
    match op
    case Gt => max <= v
    case GtEq => max < v
    case Lt => min >= v
    case LtEq => min > v
    case Eq => v < min || v > max
    case NotEq => min == max && min == v
  }

  /** `zone_map_can_skip`: typed arms for i64 and u64 literals (float arms are left out). */
  predicate CanSkip(e: PhysicalExpr, zones: ZoneMap) {
    match e
    case Comparison(left, op, right) =>
      && left.ColumnRef? && right.Constant? && left.name in zones && zones[left.name].entries != []
      && var zone := zones[left.name];
         var entry, lit := zone.entries[0], right.literal;
         if 1 <= zone.typeTag <= 4 && lit.IntOf? && lit.dataType == I64 then
           CmpCanSkip(op, DecodeLe(SIGNED, entry.minBytes), DecodeLe(SIGNED, entry.maxBytes), lit.n)
         else if 5 <= zone.typeTag <= 8 && lit.IntOf? && lit.dataType == U64 then
           CmpCanSkip(op, DecodeLe(UNSIGNED, entry.minBytes), DecodeLe(UNSIGNED, entry.maxBytes), lit.n)
         else false
    case Logic(left, AndOp, right) => CanSkip(left, zones) || CanSkip(right, zones)
    case Logic(left, OrOp, right) => CanSkip(left, zones) && CanSkip(right, zones)
    case _ => false
  }

  /** The bounds a zone holds, read as its type tag says */
  function ZoneMin(zone: ColumnZone): int
    requires zone.entries != []
  {
    DecodeLe(if zone.typeTag <= 4 then SIGNED else UNSIGNED, zone.entries[0].minBytes)
  }

  function ZoneMax(zone: ColumnZone): int
    requires zone.entries != []
  {
    DecodeLe(if zone.typeTag <= 4 then SIGNED else UNSIGNED, zone.entries[0].maxBytes)
  }

  /** The zone bounds the column, and the bounds are attained. */
  ghost predicate Bounds(zone: ColumnZone, name: Name, rows: seq<Row>) {
    zone.entries != [] && 1 <= zone.typeTag <= 8 ==>
      && (forall row: Row :: row in rows ==> name in row && row[name].Num? && ZoneMin(zone) <= row[name].n <= ZoneMax(zone))
      && (exists row: Row :: row in rows && name in row && row[name] == Num(ZoneMin(zone)))
      && (exists row: Row :: row in rows && name in row && row[name] == Num(ZoneMax(zone)))
  }

  datatype Part = Part(rows: seq<Row>, zones: ZoneMap)

  ghost predicate ZonesBound(part: Part) {
    forall name :: name in part.zones ==> Bounds(part.zones[name], name, part.rows)
  }

  /** Skipping is safe: no row of a skipped part passes the predicate. */
  lemma {:induction false} SkipIsSound(e: PhysicalExpr, part: Part, row: Row)
    requires ZonesBound(part) && row in part.rows && CanSkip(e, part.zones)
    ensures Truth(EvalPhysical(e, row)) != Some(true)
  {
    match e
    case Comparison(left, op, right) => assert Bounds(part.zones[left.name], left.name, part.rows);
    case Logic(left, AndOp, right) =>
      if CanSkip(left, part.zones) {
        SkipIsSound(left, part, row);
      } else {
        SkipIsSound(right, part, row);
      }
    case Logic(left, OrOp, right) =>
      SkipIsSound(left, part, row);
      SkipIsSound(right, part, row);
  }

  /** A literal that reaches one of the typed arms for this zone */
  predicate ArmMatches(zone: ColumnZone, lit: TypedLiteral) {
    && lit.IntOf? && zone.entries != []
    && ((1 <= zone.typeTag <= 4 && lit.dataType == I64) || (5 <= zone.typeTag <= 8 && lit.dataType == U64))
  }

  ghost predicate SomeRowPasses(e: PhysicalExpr, rows: seq<Row>) {
    exists row: Row :: row in rows && Truth(EvalPhysical(e, row)) == Some(true)
  }

  /** For a comparison other than equality that reaches a typed arm, a part is skipped
      exactly if none of its rows passes. */
  lemma SkipIsExact(name: Name, op: CmpOp, lit: TypedLiteral, part: Part)
    requires ZonesBound(part) && name in part.zones && ArmMatches(part.zones[name], lit) && op != Eq
    ensures var e := Comparison(ColumnRef(name), op, Constant(lit));
            CanSkip(e, part.zones) <==> !SomeRowPasses(e, part.rows)
  {
    hide DecodeLe;
    var e, zone := Comparison(ColumnRef(name), op, Constant(lit)), part.zones[name];
    assert Bounds(zone, name, part.rows);
    assert CanSkip(e, part.zones) <==> CmpCanSkip(op, ZoneMin(zone), ZoneMax(zone), lit.n);
    hide CanSkip, ZoneMin, ZoneMax;
    if CanSkip(e, part.zones) {
      forall row | row in part.rows ensures Truth(EvalPhysical(e, row)) != Some(true) {
        SkipIsSound(e, part, row);
      }
    } else {
      var low :| low in part.rows && name in low && low[name] == Num(ZoneMin(zone));
      var high :| high in part.rows && name in high && high[name] == Num(ZoneMax(zone));
      assert Truth(EvalPhysical(e, low)) == Some(true) || Truth(EvalPhysical(e, high)) == Some(true);
    }
  }

  ghost predicate SomeRowHolds(name: Name, n: int, rows: seq<Row>) {
    exists row: Row :: row in rows && name in row && row[name] == Num(n)
  }

  /** Equality: the skip is exact precisely when the value lies outside the bounds or
      some row holds it, so surely at or beyond the bounds. */
  lemma EqualitySkipIsExactWhen(name: Name, lit: TypedLiteral, part: Part)
    requires ZonesBound(part) && name in part.zones && ArmMatches(part.zones[name], lit)
    ensures var e, zone := Comparison(ColumnRef(name), Eq, Constant(lit)), part.zones[name];
            var exact := (CanSkip(e, part.zones) <==> !SomeRowPasses(e, part.rows));
            && (CanSkip(e, part.zones) ==> !SomeRowPasses(e, part.rows))
            && (exact <==> (lit.n < ZoneMin(zone) || ZoneMax(zone) < lit.n || SomeRowHolds(name, lit.n, part.rows)))
            && (lit.n <= ZoneMin(zone) || ZoneMax(zone) <= lit.n ==> exact)
  {
    var e, zone := Comparison(ColumnRef(name), Eq, Constant(lit)), part.zones[name];
    assert Bounds(zone, name, part.rows);
    assert SomeRowPasses(e, part.rows) <==> SomeRowHolds(name, lit.n, part.rows) by {
      forall row: Row | row in part.rows
        ensures Truth(EvalPhysical(e, row)) == Some(true) <==> name in row && row[name] == Num(lit.n)
      {
      }
    }
  }

  /** A gap: rows 1 and 3 hold no 2, yet the part is not skipped. */
  lemma EqualityGapIsRead(name: Name, zone: ColumnZone, part: Part)
    requires zone == ColumnZone(4, [ZoneEntry(EncodeLe(SIGNED, 1), EncodeLe(SIGNED, 3))])
    requires part == Part([map[name := Num(1)], map[name := Num(3)]], map[name := zone])
    ensures ZonesBound(part)
    ensures var e := Comparison(ColumnRef(name), Eq, Constant(IntOf(I64, 2)));
            !CanSkip(e, part.zones) && !SomeRowPasses(e, part.rows)
  {
    hide DecodeLe, EncodeLe;
    DecodeLeOfEncodeLe(SIGNED, 1);
    DecodeLeOfEncodeLe(SIGNED, 3);
    assert ZoneMin(zone) == 1 && ZoneMax(zone) == 3;
    assert part.rows[0] in part.rows && part.rows[1] in part.rows;
    assert Bounds(zone, name, part.rows);
    EqualitySkipIsExactWhen(name, IntOf(I64, 2), part);
  }

  // ---- Answers ----

  function Restrict(row: Row, columns: set<Name>): Row {
    map c | c in row && c in columns :: row[c]
  }

  function RestrictAll(rows: seq<Row>, columns: set<Name>): (restricted: seq<Row>)
    ensures |restricted| == |rows| && forall i :: 0 <= i < |rows| ==> restricted[i] == Restrict(rows[i], columns)
  {
    seq(|rows|, i requires 0 <= i < |rows| => Restrict(rows[i], columns))
  }

  function AllRows(parts: seq<Part>): seq<Row> {
    if parts == [] then [] else AllRows(parts[..|parts| - 1]) + parts[|parts| - 1].rows
  }

  /** The parts a zone map scan reads */
  function Unskipped(skip: PhysicalExpr, parts: seq<Part>): seq<Part> {
    if parts == [] then []
    else
      var last := parts[|parts| - 1];
      Unskipped(skip, parts[..|parts| - 1]) + if CanSkip(skip, last.zones) then [] else [last]
  }

  function RefNames(es: seq<PhysicalExpr>): Option<seq<Name>> {
    if es == [] then Some([])
    else
      var before, last := RefNames(es[..|es| - 1]), es[|es| - 1];
      if before.None? || !last.ColumnRef? then None else Some(before.value + [last.name])
  }

  ghost function RunAnswer(summary: Summary, plan: PhysicalPlan, parts: seq<Part>): Option<seq<Row>> {
    match plan
    case FullScan(_, columns) => Some(RestrictAll(AllRows(parts), columns))
    case ZoneMapScan(_, columns, skip) => Some(RestrictAll(AllRows(Unskipped(skip, parts)), columns))
    case FilterRows(condition, input) =>
      (match RunAnswer(summary, input, parts)
       case None => None
       case Some(rows) => Selected(row => Truth(EvalPhysical(condition, row)), rows))
    case ProjectRows(projections, input) =>
      (match RunAnswer(summary, input, parts)
       case None => None
       case Some(rows) =>
         match RefNames(projections)
         case None => None
         case Some(names) => Mapped(row => Named(names, Lookups(row, names)), rows))
    case AggregateRows(groupBy, aggregates, input) =>
      (match RunAnswer(summary, input, parts)
       case None => None
       case Some(rows) =>
         match RefNames(groupBy)
         case None => None
         case Some(names) => Grouped(summary, names, aggregates, rows))
    case LimitRows(limit, input) =>
      (match RunAnswer(summary, input, parts)
       case None => None
       case Some(rows) => Some(Taken(limit, rows)))
  }

  // ---- The physical rules ----

  function RewritePlan(f: PhysicalPlan -> PhysicalPlan, plan: PhysicalPlan): PhysicalPlan
    decreases plan
  {
    match plan
    case FullScan(_, _) => f(plan)
    case ZoneMapScan(_, _, _) => f(plan)
    case FilterRows(condition, input) => f(FilterRows(condition, RewritePlan(f, input)))
    case ProjectRows(projections, input) => f(ProjectRows(projections, RewritePlan(f, input)))
    case AggregateRows(groupBy, aggregates, input) => f(AggregateRows(groupBy, aggregates, RewritePlan(f, input)))
    case LimitRows(limit, input) => f(LimitRows(limit, RewritePlan(f, input)))
  }

  function PushdownNode(node: PhysicalPlan): PhysicalPlan {
    if node.FilterRows? && node.input.FullScan? then
      FilterRows(node.condition, ZoneMapScan(node.input.table, node.input.columns, node.condition))
    else node
  }

  function EliminateFilterNode(node: PhysicalPlan): PhysicalPlan {
    if node.FilterRows? && node.condition == Constant(BoolOf(true)) then node.input else node
  }

  function OptimizePlan(plan: PhysicalPlan): PhysicalPlan {
    RewritePlan(PushdownNode, RewritePlan(EliminateFilterNode, plan))
  }

  ghost predicate PlanRefines(summary: Summary, parts: seq<Part>, p: PhysicalPlan, q: PhysicalPlan) {
    RunAnswer(summary, p, parts).Some? ==> RunAnswer(summary, q, parts) == RunAnswer(summary, p, parts)
  }

  lemma {:induction false} RewritePlanRefines(summary: Summary, parts: seq<Part>,
                                              f: PhysicalPlan -> PhysicalPlan, plan: PhysicalPlan)
    requires forall p :: PlanRefines(summary, parts, p, f(p))
    ensures PlanRefines(summary, parts, plan, RewritePlan(f, plan))
    decreases plan
  {
    hide Selected, Mapped, Grouped, Named, RefNames, RestrictAll, AllRows, Unskipped;
    if plan.FullScan? || plan.ZoneMapScan? {
      assert PlanRefines(summary, parts, plan, f(plan));
    } else {
      RewritePlanRefines(summary, parts, f, plan.input);
      var node := plan.(input := RewritePlan(f, plan.input));
      assert PlanRefines(summary, parts, plan, node) && PlanRefines(summary, parts, node, f(node));
    }
  }

  lemma {:induction false} SelectedOfConcat(test: Row -> Option<bool>, a: seq<Row>, b: seq<Row>)
    ensures Selected(test, a + b)
         == if Selected(test, a).None? || Selected(test, b).None? then None
            else Some(Selected(test, a).value + Selected(test, b).value)
  {
    var none: seq<Row> := [];
    if b == [] {
      assert a + b == a;
      assert Selected(test, a).Some? ==> Selected(test, a).value + none == Selected(test, a).value;
    } else {
      var front, row := b[..|b| - 1], b[|b| - 1];
      SelectedOfConcat(test, a, front);
      assert (a + b)[..|a + b| - 1] == a + front && (a + b)[|a + b| - 1] == row;
      if Selected(test, a).Some? && Selected(test, front).Some? && test(row).Some? {
        var kept: seq<Row> := if test(row).value then [row] else [];
        assert Selected(test, a).value + (Selected(test, front).value + kept)
            == (Selected(test, a).value + Selected(test, front).value) + kept;
      }
    }
  }

  lemma {:induction false} NoneSelected(test: Row -> Option<bool>, rows: seq<Row>)
    requires forall row: Row :: row in rows ==> test(row) != Some(true)
    ensures Selected(test, rows).Some? ==> Selected(test, rows) == Some([])
  {
    if rows != [] {
      NoneSelected(test, rows[..|rows| - 1]);
      assert rows[|rows| - 1] in rows;
      var none: seq<Row> := [];
      assert none + none == none;
    }
  }

  /** A verdict on a restricted row is the verdict on the whole row. */
  lemma {:induction false} RestrictKeepsTruth(e: PhysicalExpr, row: Row, columns: set<Name>)
    ensures EvalPhysical(e, Restrict(row, columns)).Some? ==>
              EvalPhysical(e, row) == EvalPhysical(e, Restrict(row, columns))
  {
    match e
    case Comparison(left, _, right) =>
      RestrictKeepsTruth(left, row, columns);
      RestrictKeepsTruth(right, row, columns);
    case Logic(left, _, right) =>
      RestrictKeepsTruth(left, row, columns);
      RestrictKeepsTruth(right, row, columns);
    case _ =>
  }

  lemma SkippedPartSelectsNothing(e: PhysicalExpr, part: Part, columns: set<Name>)
    requires ZonesBound(part) && CanSkip(e, part.zones)
    ensures var test := row => Truth(EvalPhysical(e, row));
            Selected(test, RestrictAll(part.rows, columns)).Some? ==> Selected(test, RestrictAll(part.rows, columns)) == Some([])
  {
    var rows := RestrictAll(part.rows, columns);
    forall row | row in rows ensures Truth(EvalPhysical(e, row)) != Some(true) {
      var i :| 0 <= i < |rows| && rows[i] == row;
      SkipIsSound(e, part, part.rows[i]);
      RestrictKeepsTruth(e, part.rows[i], columns);
    }
    NoneSelected(row => Truth(EvalPhysical(e, row)), rows);
  }

  lemma RestrictedLast(front: seq<Part>, last: Part, columns: set<Name>)
    ensures RestrictAll(AllRows(front + [last]), columns) == RestrictAll(AllRows(front), columns) + RestrictAll(last.rows, columns)
  {
    assert (front + [last])[..|front|] == front;
  }

  lemma ReadPartKeepsSelection(test: Row -> Option<bool>, all: seq<Row>, kept: seq<Row>, rows: seq<Row>)
    requires Selected(test, all).Some? ==> Selected(test, kept) == Selected(test, all)
    ensures Selected(test, all + rows).Some? ==> Selected(test, kept + rows) == Selected(test, all + rows)
  {
    hide Selected;
    SelectedOfConcat(test, all, rows);
    SelectedOfConcat(test, kept, rows);
  }

  lemma SkippedPartKeepsSelection(test: Row -> Option<bool>, all: seq<Row>, kept: seq<Row>, rows: seq<Row>)
    requires Selected(test, all).Some? ==> Selected(test, kept) == Selected(test, all)
    requires Selected(test, rows).Some? ==> Selected(test, rows) == Some([])
    ensures Selected(test, all + rows).Some? ==> Selected(test, kept) == Selected(test, all + rows)
  {
    hide Selected;
    SelectedOfConcat(test, all, rows);
    if Selected(test, all).Some? {
      assert Selected(test, all).value + [] == Selected(test, all).value;
    }
  }

  /** Filtering what a zone map scan reads gives what filtering the whole table gives. */
  lemma {:induction false} SkippingKeepsSelection(e: PhysicalExpr, parts: seq<Part>, columns: set<Name>)
    requires forall i :: 0 <= i < |parts| ==> ZonesBound(parts[i])
    ensures var test := row => Truth(EvalPhysical(e, row));
            var all := Selected(test, RestrictAll(AllRows(parts), columns));
            all.Some? ==> Selected(test, RestrictAll(AllRows(Unskipped(e, parts)), columns)) == all
  {
    hide Selected, ZonesBound, CanSkip, RestrictAll, AllRows, Truth, EvalPhysical;
    if parts != [] {
      var test := row => Truth(EvalPhysical(e, row));
      var front, last := parts[..|parts| - 1], parts[|parts| - 1];
      assert parts == front + [last];
      SkippingKeepsSelection(e, front, columns);
      RestrictedLast(front, last, columns);
      var kept, all, rows := Unskipped(e, front), RestrictAll(AllRows(front), columns), RestrictAll(last.rows, columns);
      if CanSkip(e, last.zones) {
        SkippedPartSelectsNothing(e, last, columns);
        SkippedPartKeepsSelection(test, all, RestrictAll(AllRows(kept), columns), rows);
        assert Unskipped(e, parts) == kept + [] == kept;
      } else {
        RestrictedLast(kept, last, columns);
        ReadPartKeepsSelection(test, all, RestrictAll(AllRows(kept), columns), rows);
      }
    }
  }

  /** Pushing a filter's condition into the scan below keeps the answer. */
  lemma PushdownRefines(summary: Summary, parts: seq<Part>, p: PhysicalPlan)
    requires forall i :: 0 <= i < |parts| ==> ZonesBound(parts[i])
    ensures PlanRefines(summary, parts, p, PushdownNode(p))
  {
    if p.FilterRows? && p.input.FullScan? {
      SkippingKeepsSelection(p.condition, parts, p.input.columns);
    }
  }

  lemma EliminateFilterRefines(summary: Summary, parts: seq<Part>, p: PhysicalPlan)
    ensures PlanRefines(summary, parts, p, EliminateFilterNode(p))
  {
    if EliminateFilterNode(p) != p && RunAnswer(summary, p.input, parts).Some? {
      AlwaysSelected(row => Truth(EvalPhysical(p.condition, row)), RunAnswer(summary, p.input, parts).value);
    }
  }

  lemma OptimizePlanRefines(summary: Summary, parts: seq<Part>, plan: PhysicalPlan)
    requires forall i :: 0 <= i < |parts| ==> ZonesBound(parts[i])
    ensures PlanRefines(summary, parts, plan, OptimizePlan(plan))
  {
    forall p ensures PlanRefines(summary, parts, p, EliminateFilterNode(p)) {
      EliminateFilterRefines(summary, parts, p);
    }
    RewritePlanRefines(summary, parts, EliminateFilterNode, plan);
    forall p ensures PlanRefines(summary, parts, p, PushdownNode(p)) {
      PushdownRefines(summary, parts, p);
    }
    RewritePlanRefines(summary, parts, PushdownNode, RewritePlan(EliminateFilterNode, plan));
  }
}
