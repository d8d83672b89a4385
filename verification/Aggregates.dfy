/** What COUNT, SUM, AVG, MIN and MAX mean: each aggregate is a commutative monoid
    of cells, and a query's answer gives every group the total of its rows. */
module Aggregates {
  import opened Wrappers
  import opened Arithmetic
  import opened Sequences

  // ---- Cells ----

  /** Running sums and counts wrap in 64 bits: i64 for signed columns, u64 otherwise. */
  function Wrap(signed: bool, x: int): int {
    if signed then (x + 0x8000_0000_0000_0000) % 0x1_0000_0000_0000_0000 - 0x8000_0000_0000_0000
    else x % 0x1_0000_0000_0000_0000
  }

  lemma WrapAbsorbs(signed: bool, x: int, y: int)
    ensures Wrap(signed, Wrap(signed, x) + y) == Wrap(signed, x + y)
    ensures Wrap(signed, Wrap(signed, x)) == Wrap(signed, x)
  {
    var d := 0x1_0000_0000_0000_0000;
    var bias := if signed then 0x8000_0000_0000_0000 else 0;
    var q := (x + bias) / d;
    assert Wrap(signed, x) == x - d * q;
    ShiftByMultiple(x + y + bias, d, q);
    ShiftByMultiple(x + bias, d, q);
  }

  /** The integers of a 64-bit word */
  predicate InWord(signed: bool, x: int) {
    if signed then -0x8000_0000_0000_0000 <= x < 0x8000_0000_0000_0000 else 0 <= x < 0x1_0000_0000_0000_0000
  }

  /** Wrapping gives the one integer of the word that differs by a multiple of 2^64, so
      what fits the word stays as it is. */
  lemma WrapMeans(signed: bool, x: int)
    ensures InWord(signed, Wrap(signed, x)) && (Wrap(signed, x) - x) % 0x1_0000_0000_0000_0000 == 0
    ensures InWord(signed, x) ==> Wrap(signed, x) == x
  {
    var d := 0x1_0000_0000_0000_0000;
    var bias := if signed then 0x8000_0000_0000_0000 else 0;
    var q := (x + bias) / d;
    assert Wrap(signed, x) - x == d * -q;
  }

  datatype Aggregator = Count | Sum(signed: bool) | Avg | Min | Max

  /** One group's state in one accumulator */
  datatype Cell = Num(n: int) | Mean(sum: int, count: int) | Best(value: Option<int>)

  /** A value as it travels in a batch; AVG's partial state is a pair. */
  datatype Datum = Scalar(v: int) | Pair(sum: int, count: int)

  /** The cells an accumulator for `f` can hold */
  predicate Shaped(f: Aggregator, c: Cell) {
    match f
    case Count => c.Num? && Wrap(false, c.n) == c.n
    case Sum(signed) => c.Num? && Wrap(signed, c.n) == c.n
    case Avg => c.Mean? && Wrap(false, c.count) == c.count
    case _ => c.Best?
  }

  function Unit(f: Aggregator): (c: Cell)
    ensures Shaped(f, c)
  {
    match f
    case Count => Num(0)
    case Sum(_) => Num(0)
    case Avg => Mean(0, 0)
    case _ => Best(None)
  }

  predicate Beats(f: Aggregator, x: int, y: int) {
    if f.Min? then x < y else x > y
  }

  function Combine(f: Aggregator, a: Cell, b: Cell): (c: Cell)
    requires Shaped(f, a) && Shaped(f, b)
    ensures Shaped(f, c)
  {
    match f
    case Count => Num(Wrap(false, a.n + b.n))
    case Sum(signed) => Num(Wrap(signed, a.n + b.n))
    case Avg => Mean(a.sum + b.sum, Wrap(false, a.count + b.count))
    case _ =>
      if a.value.None? then b
      else if b.value.None? then a
      else if Beats(f, b.value.value, a.value.value) then b else a
  }

  lemma UnitIsNeutral(f: Aggregator, a: Cell)
    requires Shaped(f, a)
    ensures Combine(f, Unit(f), a) == a == Combine(f, a, Unit(f))
  {
  }

  lemma CombineCommutes(f: Aggregator, a: Cell, b: Cell)
    requires Shaped(f, a) && Shaped(f, b)
    ensures Combine(f, a, b) == Combine(f, b, a)
  {
  }

  lemma WrapAssociates(signed: bool, x: int, y: int, z: int)
    ensures Wrap(signed, Wrap(signed, x + y) + z) == Wrap(signed, x + Wrap(signed, y + z))
  {
    WrapAbsorbs(signed, x + y, z);
    WrapAbsorbs(signed, y + z, x);
  }

  lemma BestAssociates(f: Aggregator, a: Cell, b: Cell, c: Cell)
    requires (f.Min? || f.Max?) && a.Best? && b.Best? && c.Best?
    ensures Combine(f, Combine(f, a, b), c) == Combine(f, a, Combine(f, b, c))
  {
    if a.value.Some? && b.value.Some? && c.value.Some? {
      assert Beats(f, c.value.value, b.value.value) || !Beats(f, c.value.value, b.value.value);
    }
  }

  lemma CombineAssociates(f: Aggregator, a: Cell, b: Cell, c: Cell)
    requires Shaped(f, a) && Shaped(f, b) && Shaped(f, c)
    ensures Combine(f, Combine(f, a, b), c) == Combine(f, a, Combine(f, b, c))
  {
    hide Wrap;
    match f
    case Count => WrapAssociates(false, a.n, b.n, c.n);
    case Sum(signed) => WrapAssociates(signed, a.n, b.n, c.n);
    case Avg => WrapAssociates(false, a.count, b.count, c.count);
    case _ => BestAssociates(f, a, b, c);
  }

  // ---- Totals ----

  ghost predicate AllShaped(f: Aggregator, cells: seq<Cell>) {
    forall i :: 0 <= i < |cells| ==> Shaped(f, cells[i])
  }

  function Total(f: Aggregator, cells: seq<Cell>): (c: Cell)
    requires AllShaped(f, cells)
    ensures Shaped(f, c)
  {
    if cells == [] then Unit(f)
    else Combine(f, Total(f, cells[..|cells| - 1]), cells[|cells| - 1])
  }

  lemma {:induction false} TotalOfConcat(f: Aggregator, a: seq<Cell>, b: seq<Cell>)
    requires AllShaped(f, a) && AllShaped(f, b)
    ensures AllShaped(f, a + b)
    ensures Total(f, a + b) == Combine(f, Total(f, a), Total(f, b))
  {
    if b == [] {
      assert a + b == a;
      UnitIsNeutral(f, Total(f, a));
    } else {
      var last := |b| - 1;
      assert (a + b)[..|a + b| - 1] == a + b[..last];
      TotalOfConcat(f, a, b[..last]);
      CombineAssociates(f, Total(f, a), Total(f, b[..last]), b[last]);
    }
  }

  // ---- Cells in and out of batches ----

  predicate Typed(f: Aggregator, d: Datum) {
    if f.Avg? then d.Pair? && Wrap(false, d.count) == d.count
    else d.Scalar? && (f.Count? ==> Wrap(false, d.v) == d.v) && (f.Sum? ==> Wrap(f.signed, d.v) == d.v)
  }

  /** The cell one input value makes: what `update` adds */
  function Lift(f: Aggregator, d: Datum): (c: Cell)
    requires d.Scalar?
    ensures Shaped(f, c)
  {
    match f
    case Count => Num(1)
    case Sum(signed) => WrapAbsorbs(signed, d.v, 0); Num(Wrap(signed, d.v))
    case Avg => Mean(d.v, 1)
    case _ => Best(Some(d.v))
  }

  /** The cell a partial result stands for: what `merge` adds */
  function Read(f: Aggregator, d: Datum): (c: Cell)
    requires Typed(f, d)
    ensures Shaped(f, c)
  {
    match f
    case Count => Num(d.v)
    case Sum(_) => Num(d.v)
    case Avg => Mean(d.sum, d.count)
    case _ => Best(Some(d.v))
  }

  /** What `materialize` puts in the output; a MIN or MAX without a value shows as 0. */
  function Emit(f: Aggregator, c: Cell): (d: Datum)
    requires Shaped(f, c)
    ensures Typed(f, d)
  {
    match f
    case Count => Scalar(c.n)
    case Sum(_) => Scalar(c.n)
    case Avg => Pair(c.sum, c.count)
    case _ => Scalar(if c.value.Some? then c.value.value else 0)
  }

  /** A partial result is read back as the cell it came from, except that a MIN or
      MAX without a value would come back as 0. */
  lemma ReadOfEmit(f: Aggregator, c: Cell)
    requires Shaped(f, c)
    ensures Read(f, Emit(f, c)) == c <==> c != Best(None)
  {
  }

  // ---- Rows and groups ----

  /** A row: its GROUP BY key (`None` throughout when there is no GROUP BY) and one
      value per aggregate */
  datatype Row<K> = Row(key: Option<K>, data: seq<Datum>)

  /** Input rows hold plain values; rows of a partial result hold partial states. */
  ghost predicate RowFits<K>(merging: bool, fs: seq<Aggregator>, row: Row<K>) {
    |row.data| == |fs| &&
    forall j :: 0 <= j < |fs| ==> if merging then Typed(fs[j], row.data[j]) else row.data[j].Scalar?
  }

  ghost predicate RowsFit<K>(merging: bool, fs: seq<Aggregator>, rows: seq<Row<K>>) {
    forall i :: 0 <= i < |rows| ==> RowFits(merging, fs, rows[i])
  }

  function Incoming(merging: bool, f: Aggregator, d: Datum): (c: Cell)
    requires if merging then Typed(f, d) else d.Scalar?
    ensures Shaped(f, c)
  {
    if merging then Read(f, d) else Lift(f, d)
  }

  function KeysOf<K>(rows: seq<Row<K>>): (keys: seq<Option<K>>)
    ensures |keys| == |rows| && forall i :: 0 <= i < |rows| ==> keys[i] == rows[i].key
  {
    seq(|rows|, i requires 0 <= i < |rows| => rows[i].key)
  }

  lemma KeysOfConcat<K>(a: seq<Row<K>>, b: seq<Row<K>>)
    ensures KeysOf(a + b) == KeysOf(a) + KeysOf(b)
  {
  }

  /** The cells that the rows of group `key` bring to aggregate `j` */
  ghost function CellsOf<K>(merging: bool, fs: seq<Aggregator>, j: nat, rows: seq<Row<K>>, key: Option<K>): (cells: seq<Cell>)
    requires j < |fs| && RowsFit(merging, fs, rows)
    ensures AllShaped(fs[j], cells)
  {
    if rows == [] then []
    else
      var last := rows[|rows| - 1];
      var before := CellsOf(merging, fs, j, rows[..|rows| - 1], key);
      if last.key == key then before + [Incoming(merging, fs[j], last.data[j])] else before
  }

  /** Exactly the keys of the rows have cells. */
  lemma {:induction false} KeysHaveCells<K>(merging: bool, fs: seq<Aggregator>, j: nat, rows: seq<Row<K>>, key: Option<K>)
    requires j < |fs| && RowsFit(merging, fs, rows)
    ensures CellsOf(merging, fs, j, rows, key) == [] <==> key !in KeysOf(rows)
  {
    if rows != [] {
      KeysHaveCells(merging, fs, j, rows[..|rows| - 1], key);
      assert KeysOf(rows) == KeysOf(rows[..|rows| - 1]) + [rows[|rows| - 1].key];
    }
  }

  lemma {:induction false} CellsOfConcat<K>(merging: bool, fs: seq<Aggregator>, j: nat, a: seq<Row<K>>, b: seq<Row<K>>,
                                            key: Option<K>)
    requires j < |fs| && RowsFit(merging, fs, a) && RowsFit(merging, fs, b)
    ensures RowsFit(merging, fs, a + b)
    ensures CellsOf(merging, fs, j, a + b, key) == CellsOf(merging, fs, j, a, key) + CellsOf(merging, fs, j, b, key)
  {
    if b == [] {
      assert a + b == a;
    } else {
      assert (a + b)[..|a + b| - 1] == a + b[..|b| - 1];
      CellsOfConcat(merging, fs, j, a, b[..|b| - 1], key);
      assert (a + b)[|a + b| - 1] == b[|b| - 1];
    }
  }

  /** The group's value of aggregate `j` */
  ghost function GroupTotal<K>(merging: bool, fs: seq<Aggregator>, j: nat, rows: seq<Row<K>>, key: Option<K>): (c: Cell)
    requires j < |fs| && RowsFit(merging, fs, rows)
    ensures Shaped(fs[j], c)
  {
    Total(fs[j], CellsOf(merging, fs, j, rows, key))
  }

  lemma GroupTotalOfConcat<K>(merging: bool, fs: seq<Aggregator>, j: nat, a: seq<Row<K>>, b: seq<Row<K>>, key: Option<K>)
    requires j < |fs| && RowsFit(merging, fs, a) && RowsFit(merging, fs, b)
    ensures RowsFit(merging, fs, a + b)
    ensures GroupTotal(merging, fs, j, a + b, key) ==
            Combine(fs[j], GroupTotal(merging, fs, j, a, key), GroupTotal(merging, fs, j, b, key))
  {
    CellsOfConcat(merging, fs, j, a, b, key);
    TotalOfConcat(fs[j], CellsOf(merging, fs, j, a, key), CellsOf(merging, fs, j, b, key));
  }

  /** A row may be taken from the middle of a sequence to its end. */
  lemma GroupTotalMovesRow<K>(merging: bool, fs: seq<Aggregator>, j: nat, front: seq<Row<K>>, x: Row<K>,
                              back: seq<Row<K>>, key: Option<K>)
    requires j < |fs| && RowsFit(merging, fs, front) && RowsFit(merging, fs, back) && RowFits(merging, fs, x)
    ensures RowsFit(merging, fs, front + [x] + back) && RowsFit(merging, fs, (front + back) + [x])
    ensures GroupTotal(merging, fs, j, front + [x] + back, key) == GroupTotal(merging, fs, j, (front + back) + [x], key)
  {
    GroupTotalOfConcat(merging, fs, j, front, back, key);
    GroupTotalOfConcat(merging, fs, j, front + back, [x], key);
    GroupTotalOfConcat(merging, fs, j, front, [x], key);
    GroupTotalOfConcat(merging, fs, j, front + [x], back, key);
    var one := GroupTotal(merging, fs, j, [x], key);
    var totalFront, totalBack := GroupTotal(merging, fs, j, front, key), GroupTotal(merging, fs, j, back, key);
    CombineAssociates(fs[j], totalFront, one, totalBack);
    CombineAssociates(fs[j], totalFront, totalBack, one);
    CombineCommutes(fs[j], one, totalBack);
  }

  /** A permutation of `a` is the last element of `a` within a permutation of the rest. */
  lemma LastElementOut<T>(a: seq<T>)
    requires a != []
    ensures multiset(a[..|a| - 1]) == multiset(a) - multiset{a[|a| - 1]}
  {
    assert a == a[..|a| - 1] + [a[|a| - 1]];
  }

  lemma MiddleElementOut<T>(front: seq<T>, x: T, back: seq<T>)
    ensures multiset(front + back) == multiset(front + [x] + back) - multiset{x}
  {
  }

  lemma FindInPermutation<T>(a: seq<T>, b: seq<T>) returns (front: seq<T>, back: seq<T>)
    requires a != [] && multiset(a) == multiset(b)
    ensures b == front + [a[|a| - 1]] + back
    ensures multiset(a[..|a| - 1]) == multiset(front + back)
  {
    var x := a[|a| - 1];
    assert x in multiset(b);
    var i :| 0 <= i < |b| && b[i] == x;
    front, back := b[..i], b[i + 1..];
    Around(b, i);
    LastElementOut(a);
    MiddleElementOut(front, x, back);
  }

  lemma {:induction false} ProjectedPermutation<R, S>(f: R -> S, a: seq<R>, b: seq<R>)
    requires multiset(a) == multiset(b)
    ensures multiset(Projected(f, a)) == multiset(Projected(f, b))
    decreases |a|
  {
    if a == [] {
      assert |multiset(b)| == 0;
    } else {
      var last := |a| - 1;
      var front, back := FindInPermutation(a, b);
      ProjectedPermutation(f, a[..last], front + back);
      assert Projected(f, a) == Projected(f, a[..last]) + [f(a[last])];
      assert Projected(f, b) == Projected(f, front) + [f(a[last])] + Projected(f, back);
      assert Projected(f, front + back) == Projected(f, front) + Projected(f, back);
    }
  }

  lemma PartsFit<K>(merging: bool, fs: seq<Aggregator>, a: seq<Row<K>>, b: seq<Row<K>>)
    requires RowsFit(merging, fs, a + b)
    ensures RowsFit(merging, fs, a) && RowsFit(merging, fs, b)
  {
    forall i | 0 <= i < |a| ensures RowFits(merging, fs, a[i]) { assert a[i] == (a + b)[i]; }
    forall i | 0 <= i < |b| ensures RowFits(merging, fs, b[i]) { assert b[i] == (a + b)[|a| + i]; }
  }

  lemma PermutationFits<K>(merging: bool, fs: seq<Aggregator>, a: seq<Row<K>>, b: seq<Row<K>>)
    requires RowsFit(merging, fs, a) && multiset(a) == multiset(b)
    ensures RowsFit(merging, fs, b)
  {
    forall i | 0 <= i < |b| ensures RowFits(merging, fs, b[i]) {
      assert b[i] in multiset(a);
    }
  }

  /** The group's value does not depend on the order of the rows. */
  lemma {:induction false} GroupTotalOfPermutation<K>(merging: bool, fs: seq<Aggregator>, j: nat, a: seq<Row<K>>,
                                                      b: seq<Row<K>>, key: Option<K>)
    requires j < |fs| && RowsFit(merging, fs, a) && multiset(a) == multiset(b)
    ensures RowsFit(merging, fs, b)
    ensures GroupTotal(merging, fs, j, a, key) == GroupTotal(merging, fs, j, b, key)
    decreases |a|
  {
    PermutationFits(merging, fs, a, b);
    if a == [] {
      assert b == [] by { assert |multiset(b)| == 0; }
    } else {
      var rest, x := a[..|a| - 1], a[|a| - 1];
      assert a == rest + [x];
      var front, back := FindInPermutation(a, b);
      PartsFit(merging, fs, front + [x], back);
      PartsFit(merging, fs, front, [x]);
      PartsFit(merging, fs, rest, [x]);
      assert x == [x][0];
      GroupTotalOfPermutation(merging, fs, j, rest, front + back, key);
      GroupTotalOfConcat(merging, fs, j, rest, [x], key);
      GroupTotalOfConcat(merging, fs, j, front + back, [x], key);
      GroupTotalMovesRow(merging, fs, j, front, x, back, key);
    }
  }

  // ---- What the cells of a group say ----

  ghost function SumOf(xs: seq<int>): int {
    if xs == [] then 0 else SumOf(xs[..|xs| - 1]) + xs[|xs| - 1]
  }

  ghost function Lifted(f: Aggregator, xs: seq<int>): (cells: seq<Cell>)
    ensures |cells| == |xs| && AllShaped(f, cells)
  {
    seq(|xs|, i requires 0 <= i < |xs| => Lift(f, Scalar(xs[i])))
  }

  /** The total of plain values is the number of them, their sum, the pair of both,
      or an attained bound. */
  lemma {:induction false} TotalMeans(f: Aggregator, xs: seq<int>)
    ensures f.Count? ==> Total(f, Lifted(f, xs)) == Num(Wrap(false, |xs|))
    ensures f.Sum? ==> Total(f, Lifted(f, xs)) == Num(Wrap(f.signed, SumOf(xs)))
    ensures f.Avg? ==> Total(f, Lifted(f, xs)) == Mean(SumOf(xs), Wrap(false, |xs|))
    ensures f.Min? ==> match Total(f, Lifted(f, xs)).value
                       case None => xs == []
                       case Some(m) => m in xs && forall x :: x in xs ==> m <= x
    ensures f.Max? ==> match Total(f, Lifted(f, xs)).value
                       case None => xs == []
                       case Some(m) => m in xs && forall x :: x in xs ==> x <= m
  {
    if xs != [] {
      var before, x := xs[..|xs| - 1], xs[|xs| - 1];
      TotalMeans(f, before);
      assert Lifted(f, xs)[..|xs| - 1] == Lifted(f, before);
      assert forall y :: y in xs <==> y in before || y == x;
      if f.Sum? {
        WrapAbsorbs(f.signed, SumOf(before), Wrap(f.signed, x));
        WrapAbsorbs(f.signed, x, SumOf(before));
      } else if f.Count? || f.Avg? {
        WrapAbsorbs(false, |before|, 1);
      }
    }
  }

  /** COUNT is the number of values, SUM their sum where it fits 64 bits, AVG the pair of
      both. */
  lemma FittingTotals(f: Aggregator, xs: seq<int>)
    ensures f.Count? && |xs| < 0x1_0000_0000_0000_0000 ==> Total(f, Lifted(f, xs)) == Num(|xs|)
    ensures f.Sum? && InWord(f.signed, SumOf(xs)) ==> Total(f, Lifted(f, xs)) == Num(SumOf(xs))
    ensures f.Avg? && |xs| < 0x1_0000_0000_0000_0000 ==> Total(f, Lifted(f, xs)) == Mean(SumOf(xs), |xs|)
  {
    TotalMeans(f, xs);
    hide *;
    WrapMeans(f.Sum? && f.signed, if f.Sum? then SumOf(xs) else |xs|);
    assert InWord(false, |xs|) <==> |xs| < 0x1_0000_0000_0000_0000 by { WordOfCount(|xs|); }
  }

  lemma WordOfCount(n: nat)
    ensures InWord(false, n) <==> n < 0x1_0000_0000_0000_0000
  {
  }

  /** The values that the rows of a group have for aggregate `j` */
  ghost function GroupValues<K>(fs: seq<Aggregator>, j: nat, rows: seq<Row<K>>, key: Option<K>): seq<int>
    requires j < |fs| && RowsFit(false, fs, rows)
  {
    if rows == [] then []
    else
      var last := rows[|rows| - 1];
      GroupValues(fs, j, rows[..|rows| - 1], key) + if last.key == key then [last.data[j].v] else []
  }

  /** A group's total is `TotalMeans` of the values of its rows. */
  lemma {:induction false} GroupTotalMeans<K>(fs: seq<Aggregator>, j: nat, rows: seq<Row<K>>, key: Option<K>)
    requires j < |fs| && RowsFit(false, fs, rows)
    ensures GroupTotal(false, fs, j, rows, key) == Total(fs[j], Lifted(fs[j], GroupValues(fs, j, rows, key)))
    ensures CellsOf(false, fs, j, rows, key) == Lifted(fs[j], GroupValues(fs, j, rows, key))
  {
    if rows != [] {
      var before, last := rows[..|rows| - 1], rows[|rows| - 1];
      GroupTotalMeans(fs, j, before, key);
      assert CellsOf(false, fs, j, before, key) + [] == CellsOf(false, fs, j, before, key);
      assert CellsOf(false, fs, j, rows, key) == Lifted(fs[j], GroupValues(fs, j, rows, key));
    }
  }

  /** They are the values of the rows with the group's key, row by row. */
  lemma {:induction false} GroupValuesAre<K>(fs: seq<Aggregator>, j: nat, rows: seq<Row<K>>, key: Option<K>)
    requires j < |fs| && RowsFit(false, fs, rows)
    ensures var mine, values := Kept((row: Row<K>) => row.key == key, rows), GroupValues(fs, j, rows, key);
            |values| == |mine| && forall i :: 0 <= i < |mine| ==> RowFits(false, fs, mine[i]) && values[i] == mine[i].data[j].v
  {
    if rows != [] {
      GroupValuesAre(fs, j, rows[..|rows| - 1], key);
    }
  }

  /** COUNT of a group is the number of its rows, SUM the sum over them where it fits. */
  lemma GroupTotalsFit<K>(fs: seq<Aggregator>, j: nat, rows: seq<Row<K>>, key: Option<K>)
    requires j < |fs| && RowsFit(false, fs, rows)
    ensures fs[j].Count? && |rows| < 0x1_0000_0000_0000_0000 ==>
              GroupTotal(false, fs, j, rows, key) == Num(|Kept((row: Row<K>) => row.key == key, rows)|)
    ensures fs[j].Sum? && InWord(fs[j].signed, SumOf(GroupValues(fs, j, rows, key))) ==>
              GroupTotal(false, fs, j, rows, key) == Num(SumOf(GroupValues(fs, j, rows, key)))
  {
    GroupTotalMeans(fs, j, rows, key);
    GroupValuesAre(fs, j, rows, key);
    KeptIsShorter((row: Row<K>) => row.key == key, rows);
    hide *;
    FittingTotals(fs[j], GroupValues(fs, j, rows, key));
  }
}
