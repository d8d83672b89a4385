/** The parallel pipeline as a step system: workers that claim parts from a shared
    counter, scan them granule by granule, and send batches over a bounded channel to
    one receiver. A worker either streams every batch that survives the filter or, in
    an aggregating query, folds its rows and sends one partial result at the end. */
module Gather {
  import opened Sequences
  import opened Wrappers

  // ---- The work source ----

  class PartWorkSource<P> {
    const parts: seq<P>
    var next: nat

    constructor (parts: seq<P>)
      ensures this.parts == parts && next == 0
    {
      this.parts, next := parts, 0;
    }

    /** Each part is handed out exactly once, in order; after that there is nothing. */
    method NextWork() returns (work: Option<P>)
      modifies this
      ensures next == old(next) + 1
      ensures work == if old(next) < |parts| then Some(parts[old(next)]) else None
    {
      var val := next;
      next := next + 1;
      work := if val < |parts| then Some(parts[val]) else None;
    }
  }

  // ---- States ----

  const CHANNEL_BOUND: nat := 128

  /** What never changes in a run: the parts as lists of granules (none where the zone
      map rules the part out), the filter above the scan, and whether the workers
      aggregate. */
  datatype Query<!R> = Query(parts: seq<seq<seq<R>>>, keep: R -> bool, aggregating: bool)

  /** A batch in flight: the rows it carries (or, aggregating, stands for) and where
      they come from */
  datatype Message<R> = Message(worker: nat, part: Option<nat>, granule: nat, rows: seq<R>)

  /** Scanning, then Drained once the work source has nothing left, then Exited */
  datatype Phase = Scanning | Drained | Exited

  datatype Worker<R> = Worker(phase: Phase, part: Option<nat>, granule: nat, held: seq<R>, outbox: Option<Message<R>>)

  datatype State<R> = State(next: nat, workers: seq<Worker<R>>, queue: seq<Message<R>>, delivered: seq<Message<R>>, open: bool)

  ghost predicate Initial<R>(q: Query<R>, s: State<R>) {
    && s.next == 0 && s.queue == [] && s.delivered == [] && s.open && |s.workers| > 0
    && forall w :: 0 <= w < |s.workers| ==> s.workers[w] == Worker(Scanning, None, 0, [], None)
  }

  // ---- Steps ----

  datatype Step = Claim(w: nat) | Scan(w: nat) | Send(w: nat) | Exit(w: nat) | Receive | DropReceiver

  /** Some granule of the current part is still to be read. */
  predicate Reading<R>(q: Query<R>, worker: Worker<R>) {
    worker.part.Some? && worker.part.value < |q.parts| && worker.granule < |q.parts[worker.part.value]|
  }

  predicate Enabled<R>(q: Query<R>, s: State<R>, step: Step) {
    match step
    case Claim(w) =>
      w < |s.workers| && var x := s.workers[w]; x.phase.Scanning? && !Reading(q, x) && x.outbox.None?
    case Scan(w) =>
      w < |s.workers| && var x := s.workers[w]; x.phase.Scanning? && Reading(q, x) && x.outbox.None?
    case Send(w) =>
      w < |s.workers| && s.workers[w].outbox.Some? && (s.open ==> |s.queue| < CHANNEL_BOUND)
    case Exit(w) =>
      w < |s.workers| && s.workers[w].phase.Drained? && s.workers[w].outbox.None?
    case Receive => s.open && s.queue != []
    case DropReceiver => s.open
  }

  function AfterClaim<R>(q: Query<R>, val: nat, w: nat, x: Worker<R>): Worker<R> {
    if val < |q.parts| then x.(part := Some(val), granule := 0)
    else x.(phase := Drained, part := None, outbox := if q.aggregating then Some(Message(w, None, 0, x.held)) else None)
  }

  function AfterScan<R>(q: Query<R>, w: nat, x: Worker<R>): Worker<R>
    requires Reading(q, x)
  {
    var rows := Kept(q.keep, q.parts[x.part.value][x.granule]);
    var y := x.(granule := x.granule + 1);
    if q.aggregating then y.(held := x.held + rows)
    else if rows == [] then y
    else y.(outbox := Some(Message(w, x.part, x.granule, rows)))
  }

  function Apply<R>(q: Query<R>, s: State<R>, step: Step): State<R>
    requires Enabled(q, s, step)
  {
    match step
    case Claim(w) =>
      s.(next := s.next + 1, workers := s.workers[w := AfterClaim(q, s.next, w, s.workers[w])])
    case Scan(w) =>
      s.(workers := s.workers[w := AfterScan(q, w, s.workers[w])])
    case Send(w) =>
      if s.open then
        s.(queue := s.queue + [s.workers[w].outbox.value], workers := s.workers[w := s.workers[w].(outbox := None)])
      else  // the send fails and the worker leaves its loop
        s.(workers := s.workers[w := s.workers[w].(outbox := None, phase := Exited, part := None)])
    case Exit(w) =>
      s.(workers := s.workers[w := s.workers[w].(phase := Exited)])
    case Receive =>
      s.(queue := s.queue[1..], delivered := s.delivered + [s.queue[0]])
    case DropReceiver =>
      s.(open := false, queue := [])
  }

  /** A run: each state follows from the one before by an enabled step. */
  ghost predicate IsRun<R>(q: Query<R>, states: seq<State<R>>, steps: seq<Step>) {
    && |states| == |steps| + 1
    && forall i :: 0 <= i < |steps| ==> Enabled(q, states[i], steps[i]) && states[i + 1] == Apply(q, states[i], steps[i])
  }

  /** The receiver sees the end of the stream: every sender is gone and nothing is queued. */
  ghost predicate EndOfStream<R>(s: State<R>) {
    s.open && s.queue == [] && AllExited(s)
  }

  ghost predicate AllExited<R>(s: State<R>) {
    forall w :: 0 <= w < |s.workers| ==> s.workers[w].phase.Exited?
  }

  // ---- Where the rows are ----

  ghost function PartRows<R>(q: Query<R>): (rows: seq<seq<R>>)
    ensures |rows| == |q.parts| && forall p :: 0 <= p < |q.parts| ==> rows[p] == Concat(q.parts[p])
  {
    seq(|q.parts|, p requires 0 <= p < |q.parts| => Concat(q.parts[p]))
  }

  /** The rows that the query keeps, in table order */
  ghost function KeptTable<R>(q: Query<R>): seq<R> {
    Kept(q.keep, Concat(PartRows(q)))
  }

  ghost function MessageRows<R>(msgs: seq<Message<R>>): (lots: seq<seq<R>>)
    ensures |lots| == |msgs| && forall i :: 0 <= i < |msgs| ==> lots[i] == msgs[i].rows
  {
    seq(|msgs|, i requires 0 <= i < |msgs| => msgs[i].rows)
  }

  ghost function RowsIn<R>(msgs: seq<Message<R>>): multiset<R> {
    multiset(Concat(MessageRows(msgs)))
  }

  /** The rows a worker answers for: still to scan in its part, folded, or unsent */
  ghost function Owed<R>(q: Query<R>, x: Worker<R>): multiset<R> {
    (if Reading(q, x) then multiset(Kept(q.keep, Concat(q.parts[x.part.value][x.granule..]))) else multiset{})
    + (if x.phase.Scanning? then multiset(x.held) else multiset{})
    + (if x.outbox.Some? then multiset(x.outbox.value.rows) else multiset{})
  }

  ghost function OwedBy<R>(q: Query<R>, workers: seq<Worker<R>>): (owed: seq<multiset<R>>)
    ensures |owed| == |workers| && forall w :: 0 <= w < |workers| ==> owed[w] == Owed(q, workers[w])
  {
    seq(|workers|, w requires 0 <= w < |workers| => Owed(q, workers[w]))
  }

  ghost function Sum<R>(ms: seq<multiset<R>>): multiset<R> {
    if ms == [] then multiset{} else Sum(ms[..|ms| - 1]) + ms[|ms| - 1]
  }

  ghost function AllOwed<R>(q: Query<R>, workers: seq<Worker<R>>): multiset<R> {
    Sum(OwedBy(q, workers))
  }

  /** The kept rows of the parts from `next` on */
  ghost function Unclaimed<R>(q: Query<R>, next: nat): multiset<R> {
    if next >= |q.parts| then multiset{} else multiset(Kept(q.keep, Concat(PartRows(q)[next..])))
  }

  /** Conservation: delivered rows, queued rows, rows with the workers and unclaimed
      rows together are the kept rows of the table, each once. */
  ghost predicate Conserved<R>(q: Query<R>, s: State<R>) {
    RowsIn(s.delivered) + RowsIn(s.queue) + AllOwed(q, s.workers) + Unclaimed(q, s.next) == multiset(KeptTable(q))
  }

  /** What a worker's fields say about each other */
  ghost predicate WorkerOk<R>(q: Query<R>, s: State<R>, x: Worker<R>) {
    && (x.part.Some? ==> x.part.value < s.next && x.part.value < |q.parts| && x.granule <= |q.parts[x.part.value]|)
    && (!x.phase.Scanning? ==> x.part.None?)
    && (x.phase.Drained? || (x.phase.Exited? && s.open) ==> s.next >= |q.parts|)
    && (x.phase.Exited? ==> x.outbox.None?)
    && (!q.aggregating ==> x.held == [])
  }

  ghost predicate WellShaped<R>(q: Query<R>, s: State<R>) {
    && |s.workers| > 0 && |s.queue| <= CHANNEL_BOUND
    && (forall w :: 0 <= w < |s.workers| ==> WorkerOk(q, s, s.workers[w]))
  }

  ghost predicate Invariant<R>(q: Query<R>, s: State<R>) {
    WellShaped(q, s) && (s.open ==> Conserved(q, s))
  }

  // ---- Conservation, step by step ----

  lemma AddToBoth<R>(a: multiset<R>, b: multiset<R>, c: multiset<R>, d: multiset<R>, e: multiset<R>)
    requires a + b == c + d
    ensures (a + e) + b == (c + e) + d
  {
    assert (a + e) + b == (a + b) + e;
    assert (c + e) + d == (c + d) + e;
  }

  lemma {:induction false} SumUpdates<R>(ms: seq<multiset<R>>, w: nat, m: multiset<R>)
    requires w < |ms|
    ensures Sum(ms[w := m]) + ms[w] == Sum(ms) + m
  {
    var n := |ms| - 1;
    if w < n {
      assert ms[w := m][..n] == ms[..n][w := m];
      SumUpdates(ms[..n], w, m);
      AddToBoth(Sum(ms[..n][w := m]), ms[w], Sum(ms[..n]), m, ms[n]);
    } else {
      assert ms[w := m][..n] == ms[..n];
    }
  }

  lemma OwedUpdates<R>(q: Query<R>, workers: seq<Worker<R>>, w: nat, x: Worker<R>)
    requires w < |workers|
    ensures AllOwed(q, workers[w := x]) + Owed(q, workers[w]) == AllOwed(q, workers) + Owed(q, x)
  {
    SumUpdates(OwedBy(q, workers), w, Owed(q, x));
    assert OwedBy(q, workers[w := x]) == OwedBy(q, workers)[w := Owed(q, x)];
  }

  lemma OwedWithOutbox<R>(q: Query<R>, x: Worker<R>)
    requires x.outbox.Some?
    ensures Owed(q, x) == Owed(q, x.(outbox := None)) + multiset(x.outbox.value.rows)
  {
  }

  lemma OwedInPart<R>(q: Query<R>, x: Worker<R>)
    requires x.phase.Scanning? && x.part.Some? && x.part.value < |q.parts| && x.granule <= |q.parts[x.part.value]| && x.outbox.None?
    ensures Owed(q, x) == multiset(Kept(q.keep, Concat(q.parts[x.part.value][x.granule..]))) + multiset(x.held)
  {
    if x.granule == |q.parts[x.part.value]| {
      assert q.parts[x.part.value][x.granule..] == [];
    }
  }

  lemma OwedBetweenParts<R>(q: Query<R>, x: Worker<R>)
    requires x.phase.Scanning? && !Reading(q, x) && x.outbox.None?
    ensures Owed(q, x) == multiset(x.held)
  {
  }

  lemma OwedWhenDrained<R>(q: Query<R>, x: Worker<R>)
    requires !x.phase.Scanning? && x.part.None?
    ensures Owed(q, x) == if x.outbox.Some? then multiset(x.outbox.value.rows) else multiset{}
  {
  }

  lemma UnclaimedStep<R>(q: Query<R>, next: nat)
    ensures next < |q.parts| ==> Unclaimed(q, next) == multiset(Kept(q.keep, Concat(q.parts[next]))) + Unclaimed(q, next + 1)
    ensures next >= |q.parts| ==> Unclaimed(q, next) == Unclaimed(q, next + 1) == multiset{}
  {
    if next < |q.parts| {
      var rest := PartRows(q)[next..];
      ConcatHead(rest);
      assert rest[1..] == PartRows(q)[next + 1..];
      KeptOfConcat(q.keep, rest[0], Concat(rest[1..]));
      if next + 1 == |q.parts| {
        assert rest[1..] == [];
      }
    }
  }

  lemma ClaimConserves<R>(q: Query<R>, next: nat, w: nat, x: Worker<R>)
    requires x.phase.Scanning? && !Reading(q, x) && x.outbox.None? && (!q.aggregating ==> x.held == [])
    ensures Owed(q, AfterClaim(q, next, w, x)) + Unclaimed(q, next + 1) == Owed(q, x) + Unclaimed(q, next)
  {
    var y := AfterClaim(q, next, w, x);
    OwedBetweenParts(q, x);
    UnclaimedStep(q, next);
    if next < |q.parts| {
      OwedInPart(q, y);
      assert q.parts[next][0..] == q.parts[next];
    } else {
      OwedWhenDrained(q, y);
    }
    hide Owed, Unclaimed, Kept, Concat, Reading;
  }

  lemma ScanTakesGranule<R>(q: Query<R>, p: nat, g: nat)
    requires p < |q.parts| && g < |q.parts[p]|
    ensures multiset(Kept(q.keep, Concat(q.parts[p][g..]))) ==
            multiset(Kept(q.keep, q.parts[p][g])) + multiset(Kept(q.keep, Concat(q.parts[p][g + 1..])))
  {
    var rest := q.parts[p][g..];
    ConcatHead(rest);
    assert rest[1..] == q.parts[p][g + 1..];
    KeptOfConcat(q.keep, rest[0], Concat(rest[1..]));
  }

  lemma FoldedRows<R>(held: seq<R>, rows: seq<R>, left: multiset<R>)
    ensures left + multiset(held + rows) == (multiset(rows) + left) + multiset(held)
  {
  }

  lemma SentRows<R>(held: seq<R>, rows: seq<R>, left: multiset<R>)
    ensures (left + multiset(held)) + multiset(rows) == (multiset(rows) + left) + multiset(held)
  {
  }

  /** What the step after a granule leaves of a worker */
  lemma ScanMoves<R>(q: Query<R>, w: nat, x: Worker<R>)
    requires Reading(q, x) && x.outbox.None?
    ensures var y, rows := AfterScan(q, w, x), Kept(q.keep, q.parts[x.part.value][x.granule]);
            && y.phase == x.phase && y.part == x.part && y.granule == x.granule + 1
            && match y.outbox
               case Some(m) => y.held == x.held && m.rows == rows
               case None => y.held == x.held + rows
  {
  }

  lemma ScanConserves<R>(q: Query<R>, w: nat, x: Worker<R>)
    requires x.phase.Scanning? && Reading(q, x) && x.outbox.None?
    ensures Owed(q, AfterScan(q, w, x)) == Owed(q, x)
  {
    var p, g, y := x.part.value, x.granule, AfterScan(q, w, x);
    assert p < |q.parts| && g < |q.parts[p]|;
    hide *;
    var rows, left := Kept(q.keep, q.parts[p][g]), multiset(Kept(q.keep, Concat(q.parts[p][g + 1..])));
    ScanMoves(q, w, x);
    ScanTakesGranule(q, p, g);
    OwedInPart(q, x);
    OwedInPart(q, y.(outbox := None));
    FoldedRows(x.held, rows, left);
    SentRows(x.held, rows, left);
    if y.outbox.Some? {
      OwedWithOutbox(q, y);
    }
  }

  lemma RowsInAppend<R>(msgs: seq<Message<R>>, m: Message<R>)
    ensures RowsIn(msgs + [m]) == RowsIn(msgs) + multiset(m.rows)
  {
    var lots := MessageRows(msgs + [m]);
    assert lots[..|msgs|] == MessageRows(msgs);
  }

  lemma RowsInHead<R>(msgs: seq<Message<R>>)
    requires msgs != []
    ensures RowsIn(msgs) == multiset(msgs[0].rows) + RowsIn(msgs[1..])
  {
    ConcatHead(MessageRows(msgs));
    assert MessageRows(msgs)[1..] == MessageRows(msgs[1..]);
  }

  lemma Rebalance<R>(d: multiset<R>, queued: multiset<R>, owed: multiset<R>, left: multiset<R>,
                     queued': multiset<R>, owed': multiset<R>, left': multiset<R>, mine: multiset<R>, yours: multiset<R>)
    requires owed' + mine == owed + yours
    requires queued' + yours + left' == queued + mine + left
    ensures d + queued' + owed' + left' == d + queued + owed + left
  {
    assert (d + queued' + owed' + left') + (mine + yours) == d + (queued' + yours + left') + (owed' + mine);
    assert (d + queued + owed + left) + (mine + yours) == d + (queued + mine + left) + (owed + yours);
    CancelFromBoth(d + queued' + owed' + left', d + queued + owed + left, mine + yours);
  }

  /** A worker's rows move on without loss. */
  lemma WorkerStepConserves<R>(q: Query<R>, s: State<R>, w: nat, x: Worker<R>, next: nat)
    requires w < |s.workers| && Conserved(q, s)
    requires Owed(q, x) + Unclaimed(q, next) == Owed(q, s.workers[w]) + Unclaimed(q, s.next)
    ensures Conserved(q, s.(workers := s.workers[w := x], next := next))
  {
    OwedUpdates(q, s.workers, w, x);
    var queued := RowsIn(s.queue);
    assert queued + Owed(q, x) + Unclaimed(q, next) == queued + (Owed(q, x) + Unclaimed(q, next));
    assert queued + Owed(q, s.workers[w]) + Unclaimed(q, s.next) == queued + (Owed(q, s.workers[w]) + Unclaimed(q, s.next));
    Rebalance(RowsIn(s.delivered), queued, AllOwed(q, s.workers), Unclaimed(q, s.next),
              queued, AllOwed(q, s.workers[w := x]), Unclaimed(q, next), Owed(q, s.workers[w]), Owed(q, x));
  }

  lemma CancelFromBoth<R>(a: multiset<R>, b: multiset<R>, c: multiset<R>)
    requires a + c == b + c
    ensures a == b
  {
    assert a == (a + c) - c;
    assert b == (b + c) - c;
  }

  lemma MoveAcross<R>(a: multiset<R>, b: multiset<R>, c: multiset<R>, d: multiset<R>)
    ensures (a + b) + c + d == a + (c + b) + d
  {
  }

  lemma SendConserves<R>(q: Query<R>, s: State<R>, w: nat)
    requires Conserved(q, s) && Enabled(q, s, Send(w)) && s.open
    ensures Conserved(q, Apply(q, s, Send(w)))
  {
    var m, x := s.workers[w].outbox.value, s.workers[w].(outbox := None);
    var left, yours := Unclaimed(q, s.next), Owed(q, x);
    RowsInAppend(s.queue, m);
    OwedUpdates(q, s.workers, w, x);
    OwedWithOutbox(q, s.workers[w]);
    MoveAcross(RowsIn(s.queue), multiset(m.rows), yours, left);
    Rebalance(RowsIn(s.delivered), RowsIn(s.queue), AllOwed(q, s.workers), left,
              RowsIn(s.queue + [m]), AllOwed(q, s.workers[w := x]), left, Owed(q, s.workers[w]), yours);
  }

  lemma ReceiveConserves<R>(q: Query<R>, s: State<R>)
    requires Conserved(q, s) && s.queue != []
    ensures Conserved(q, s.(queue := s.queue[1..], delivered := s.delivered + [s.queue[0]]))
  {
    RowsInHead(s.queue);
    RowsInAppend(s.delivered, s.queue[0]);
  }

  lemma ExitConserves<R>(q: Query<R>, s: State<R>, w: nat)
    requires Conserved(q, s) && Enabled(q, s, Exit(w)) && s.workers[w].part.None?
    ensures Conserved(q, Apply(q, s, Exit(w)))
  {
    WorkerStepConserves(q, s, w, s.workers[w].(phase := Exited), s.next);
  }

  /** While the receiver is there, no step loses or duplicates a row. */
  lemma StepConserves<R>(q: Query<R>, s: State<R>, step: Step)
    requires Invariant(q, s) && Enabled(q, s, step) && Apply(q, s, step).open
    ensures Conserved(q, Apply(q, s, step))
  {
    match step
    case Claim(w) =>
      assert WorkerOk(q, s, s.workers[w]);
      ClaimConserves(q, s.next, w, s.workers[w]);
      WorkerStepConserves(q, s, w, AfterClaim(q, s.next, w, s.workers[w]), s.next + 1);
    case Scan(w) =>
      ScanConserves(q, w, s.workers[w]);
      WorkerStepConserves(q, s, w, AfterScan(q, w, s.workers[w]), s.next);
    case Send(w) =>
      SendConserves(q, s, w);
    case Exit(w) =>
      assert WorkerOk(q, s, s.workers[w]);
      ExitConserves(q, s, w);
    case Receive =>
      ReceiveConserves(q, s);
    case DropReceiver =>
  }

  lemma StepKeepsShape<R>(q: Query<R>, s: State<R>, step: Step)
    requires WellShaped(q, s) && Enabled(q, s, step)
    ensures WellShaped(q, Apply(q, s, step))
  {
    var s' := Apply(q, s, step);
    forall w | 0 <= w < |s'.workers| ensures WorkerOk(q, s', s'.workers[w]) {
      assert WorkerOk(q, s, s.workers[w]);
    }
  }

  /** Every step keeps the invariant. */
  lemma StepKeepsInvariant<R>(q: Query<R>, s: State<R>, step: Step)
    requires Invariant(q, s) && Enabled(q, s, step)
    ensures Invariant(q, Apply(q, s, step))
  {
    StepKeepsShape(q, s, step);
    if Apply(q, s, step).open {
      StepConserves(q, s, step);
    }
  }

  lemma InitialInvariant<R>(q: Query<R>, s: State<R>)
    requires Initial(q, s)
    ensures Invariant(q, s)
  {
    NothingOwed(q, s.workers);
    assert PartRows(q)[0..] == PartRows(q);
  }

  lemma NothingOwed<R>(q: Query<R>, workers: seq<Worker<R>>)
    requires forall w :: 0 <= w < |workers| ==> Owed(q, workers[w]) == multiset{}
    ensures AllOwed(q, workers) == multiset{}
  {
    SumOfNothing(OwedBy(q, workers));
  }

  lemma {:induction false} SumOfNothing<R>(ms: seq<multiset<R>>)
    requires forall i :: 0 <= i < |ms| ==> ms[i] == multiset{}
    ensures Sum(ms) == multiset{}
  {
    if ms != [] {
      SumOfNothing(ms[..|ms| - 1]);
    }
  }

  /** Every state of every run satisfies the invariant. */
  lemma {:induction false} RunKeepsInvariant<R>(q: Query<R>, states: seq<State<R>>, steps: seq<Step>)
    requires IsRun(q, states, steps) && Initial(q, states[0])
    ensures Invariant(q, states[|steps|])
  {
    if steps == [] {
      InitialInvariant(q, states[0]);
    } else {
      var n := |steps| - 1;
      RunKeepsInvariant(q, states[..n + 1], steps[..n]);
      StepKeepsInvariant(q, states[n], steps[n]);
    }
  }

  /** When the receiver sees the end of the stream it has received every row that the
      query keeps exactly once, whatever the schedule. */
  lemma EndOfStreamIsComplete<R>(q: Query<R>, states: seq<State<R>>, steps: seq<Step>)
    requires IsRun(q, states, steps) && Initial(q, states[0]) && EndOfStream(states[|steps|])
    ensures RowsIn(states[|steps|].delivered) == multiset(KeptTable(q))
  {
    var s := states[|steps|];
    RunKeepsInvariant(q, states, steps);
    assert WorkerOk(q, s, s.workers[0]);
    forall w | 0 <= w < |s.workers| ensures Owed(q, s.workers[w]) == multiset{} {
      assert WorkerOk(q, s, s.workers[w]);
    }
    NothingOwed(q, s.workers);
    assert RowsIn(s.queue) == multiset{};
  }

  // ---- Progress ----

  ghost function PartsCost<R>(q: Query<R>, next: nat): nat
    decreases |q.parts| - next
  {
    if next >= |q.parts| then 0 else 1 + 4 * |q.parts[next]| + PartsCost(q, next + 1)
  }

  ghost function WorkerCost<R>(q: Query<R>, x: Worker<R>): nat {
    (if Reading(q, x) then 4 * (|q.parts[x.part.value]| - x.granule) else 0)
    + (match x.phase case Scanning => 5 case Drained => 1 case Exited => 0)
    + (if x.outbox.Some? then 3 else 0)
  }

  ghost function WorkersCost<R>(q: Query<R>, workers: seq<Worker<R>>): nat {
    if workers == [] then 0 else WorkersCost(q, workers[..|workers| - 1]) + WorkerCost(q, workers[|workers| - 1])
  }

  /** A bound on the steps that can still be taken */
  ghost function Cost<R>(q: Query<R>, s: State<R>): nat {
    PartsCost(q, s.next) + WorkersCost(q, s.workers) + 2 * |s.queue| + if s.open then 1 else 0
  }

  lemma {:induction false} WorkersCostUpdates<R>(q: Query<R>, workers: seq<Worker<R>>, w: nat, x: Worker<R>)
    requires w < |workers|
    ensures WorkersCost(q, workers[w := x]) == WorkersCost(q, workers) - WorkerCost(q, workers[w]) + WorkerCost(q, x)
  {
    var n := |workers| - 1;
    if w < n {
      assert workers[w := x][..n] == workers[..n][w := x];
      WorkersCostUpdates(q, workers[..n], w, x);
    } else {
      assert workers[w := x][..n] == workers[..n];
    }
  }

  lemma ClaimCosts<R>(q: Query<R>, next: nat, w: nat, x: Worker<R>)
    requires x.phase.Scanning? && !Reading(q, x) && x.outbox.None?
    ensures WorkerCost(q, AfterClaim(q, next, w, x)) + PartsCost(q, next + 1) < WorkerCost(q, x) + PartsCost(q, next)
  {
  }

  lemma ScanCosts<R>(q: Query<R>, w: nat, x: Worker<R>)
    requires Reading(q, x) && x.outbox.None?
    ensures WorkerCost(q, AfterScan(q, w, x)) < WorkerCost(q, x)
  {
  }

  lemma SendCosts<R>(q: Query<R>, x: Worker<R>)
    requires x.outbox.Some?
    ensures WorkerCost(q, x.(outbox := None)) + 2 < WorkerCost(q, x)
    ensures WorkerCost(q, x.(outbox := None, phase := Exited, part := None)) + 2 < WorkerCost(q, x)
  {
  }

  lemma ExitCosts<R>(q: Query<R>, x: Worker<R>)
    requires x.phase.Drained?
    ensures WorkerCost(q, x.(phase := Exited)) < WorkerCost(q, x)
  {
  }

  /** Every step brings the end closer. */
  lemma StepCosts<R>(q: Query<R>, s: State<R>, step: Step)
    requires Enabled(q, s, step)
    ensures Cost(q, Apply(q, s, step)) < Cost(q, s)
  {
    if step.Claim? || step.Scan? || step.Send? || step.Exit? {
      var w := step.w;
      var x := s.workers[w];
      WorkersCostUpdates(q, s.workers, w, Apply(q, s, step).workers[w]);
      match step
      case Claim(_) => ClaimCosts(q, s.next, w, x);
      case Scan(_) => ScanCosts(q, w, x);
      case Send(_) => SendCosts(q, x);
      case Exit(_) => ExitCosts(q, x);
    }
    hide Reading, WorkerCost, WorkersCost, PartsCost, AfterClaim, AfterScan;
  }

  /** No run is longer than the cost of its first state. */
  lemma {:induction false} RunIsBounded<R>(q: Query<R>, states: seq<State<R>>, steps: seq<Step>)
    requires IsRun(q, states, steps)
    ensures |steps| + Cost(q, states[|steps|]) <= Cost(q, states[0])
  {
    if steps != [] {
      var n := |steps| - 1;
      RunIsBounded(q, states[..n + 1], steps[..n]);
      StepCosts(q, states[n], steps[n]);
    }
  }

  /** No deadlock: until the receiver sees the end of the stream, some worker or the
      receiver can move; once the receiver is gone, some worker can move until all
      have exited. */
  lemma SomeStepIsEnabled<R>(q: Query<R>, s: State<R>)
    requires Invariant(q, s)
    requires if s.open then !EndOfStream(s) else !AllExited(s)
    ensures exists step: Step :: !step.DropReceiver? && Enabled(q, s, step)
  {
    if s.open && s.queue != [] {
      assert Enabled(q, s, Receive);
    } else {
      var w :| 0 <= w < |s.workers| && !s.workers[w].phase.Exited?;
      var x := s.workers[w];
      if x.outbox.Some? {
        assert Enabled(q, s, Send(w));
      } else if x.phase.Drained? {
        assert Enabled(q, s, Exit(w));
      } else if Reading(q, x) {
        assert Enabled(q, s, Scan(w));
      } else {
        assert Enabled(q, s, Claim(w));
      }
    }
  }

  predicate StepBy(w: nat, step: Step) {
    step == Claim(w) || step == Scan(w) || step == Send(w) || step == Exit(w)
  }

  /** A worker waits for nothing but room in the channel: until it has exited it has one
      step, whatever the other workers are doing, unless it holds a message and the
      channel is full. */
  lemma WorkersWaitOnlyForRoom<R>(q: Query<R>, s: State<R>, w: nat)
    requires WellShaped(q, s) && w < |s.workers|
    ensures (exists step :: StepBy(w, step) && Enabled(q, s, step)) <==>
              !s.workers[w].phase.Exited? && !(s.open && s.workers[w].outbox.Some? && |s.queue| >= CHANNEL_BOUND)
    ensures forall a, b :: StepBy(w, a) && Enabled(q, s, a) && StepBy(w, b) && Enabled(q, s, b) ==> a == b
  {
    var x := s.workers[w];
    assert WorkerOk(q, s, x);
    assert StepBy(w, Claim(w)) && StepBy(w, Scan(w)) && StepBy(w, Send(w)) && StepBy(w, Exit(w));
  }

  /** Once the receiver has been dropped nothing more is delivered, and no step but a
      worker's is left: by `RunIsBounded` and `SomeStepIsEnabled` every worker exits. */
  lemma DroppedStaysDropped<R>(q: Query<R>, s: State<R>, step: Step)
    requires Enabled(q, s, step) && !s.open
    ensures var s' := Apply(q, s, step); !s'.open && s'.delivered == s.delivered && s'.queue == s.queue
    ensures step.Claim? || step.Scan? || step.Send? || step.Exit?
  {
  }

  ghost predicate Finished<R>(s: State<R>) {
    if s.open then EndOfStream(s) else AllExited(s)
  }

  /** A run that only dropping the receiver could extend is over: the receiver has seen
      the end of the stream with every kept row delivered once, or was dropped and every
      worker has exited. */
  lemma StuckRunIsFinished<R>(q: Query<R>, states: seq<State<R>>, steps: seq<Step>)
    requires IsRun(q, states, steps) && Initial(q, states[0])
    requires forall step: Step :: Enabled(q, states[|steps|], step) ==> step.DropReceiver?
    ensures Finished(states[|steps|])
    ensures states[|steps|].open ==> RowsIn(states[|steps|].delivered) == multiset(KeptTable(q))
  {
    RunKeepsInvariant(q, states, steps);
    if !Finished(states[|steps|]) {
      SomeStepIsEnabled(q, states[|steps|]);
      assert false;
    }
    if states[|steps|].open {
      EndOfStreamIsComplete(q, states, steps);
    }
  }

  lemma RunExtends<R>(q: Query<R>, states: seq<State<R>>, steps: seq<Step>, step: Step)
    requires IsRun(q, states, steps) && Enabled(q, states[|steps|], step)
    ensures var longer := states + [Apply(q, states[|steps|], step)];
            && IsRun(q, longer, steps + [step]) && longer[0] == states[0]
            && (!step.DropReceiver? ==> longer[|steps| + 1].open == states[|steps|].open)
  {
    hide Enabled;
    var longer, more := states + [Apply(q, states[|steps|], step)], steps + [step];
    forall i | 0 <= i < |more| ensures Enabled(q, longer[i], more[i]) && longer[i + 1] == Apply(q, longer[i], more[i]) {
      if i < |steps| {
        assert longer[i] == states[i] && longer[i + 1] == states[i + 1] && more[i] == steps[i];
      }
    }
  }

  /** Every run goes on to such an end, without the receiver being dropped on the way,
      and by `RunIsBounded` there is no way to put that off for ever. */
  lemma EveryRunFinishes<R>(q: Query<R>, states: seq<State<R>>, steps: seq<Step>)
    returns (states': seq<State<R>>, steps': seq<Step>)
    requires IsRun(q, states, steps) && Initial(q, states[0])
    ensures IsRun(q, states', steps') && states <= states' && steps <= steps'
    ensures Finished(states'[|steps'|]) && states'[|steps'|].open == states[|steps|].open
    decreases Cost(q, states[|steps|])
  {
    states', steps' := states, steps;
    var s := states[|steps|];
    if !Finished(s) {
      RunKeepsInvariant(q, states, steps);
      SomeStepIsEnabled(q, s);
      var step: Step :| !step.DropReceiver? && Enabled(q, s, step);
      StepCosts(q, s, step);
      RunExtends(q, states, steps, step);
      hide *;
      states', steps' := EveryRunFinishes(q, states + [Apply(q, s, step)], steps + [step]);
    }
  }

  lemma {:induction false} NothingAfterDrop<R>(q: Query<R>, states: seq<State<R>>, steps: seq<Step>, k: nat)
    requires IsRun(q, states, steps) && k <= |steps| && !states[k].open
    ensures !states[|steps|].open && states[|steps|].delivered == states[k].delivered && states[|steps|].queue == states[k].queue
    decreases |steps| - k
  {
    if k < |steps| {
      DroppedStaysDropped(q, states[k], steps[k]);
      NothingAfterDrop(q, states, steps, k + 1);
    }
  }

  /** The receiver can be dropped in every state, a full channel and blocked workers
      included: every worker then exits, and nothing more is delivered. */
  lemma DroppingEndsTheRun<R>(q: Query<R>, states: seq<State<R>>, steps: seq<Step>)
    returns (states': seq<State<R>>, steps': seq<Step>)
    requires IsRun(q, states, steps) && Initial(q, states[0]) && states[|steps|].open
    ensures IsRun(q, states', steps') && states <= states' && steps + [DropReceiver] <= steps'
    ensures AllExited(states'[|steps'|]) && states'[|steps'|].delivered == states[|steps|].delivered
  {
    var s := states[|steps|];
    assert Enabled(q, s, DropReceiver);
    var dropped, more := states + [Apply(q, s, DropReceiver)], steps + [DropReceiver];
    RunExtends(q, states, steps, DropReceiver);
    states', steps' := EveryRunFinishes(q, dropped, more);
    hide Enabled, Apply, Initial;
    assert states'[|more|] == dropped[|more|];
    NothingAfterDrop(q, states', steps', |more|);
  }

  // ---- Order within a part ----

  /** What arrived of part `p`: granule numbers with their rows, in order of arrival */
  ghost function Trace<R>(msgs: seq<Message<R>>, p: nat): seq<(nat, seq<R>)> {
    if msgs == [] then []
    else
      var m := msgs[|msgs| - 1];
      Trace(msgs[..|msgs| - 1], p) + if m.part == Some(p) then [(m.granule, m.rows)] else []
  }

  /** What should arrive of the first `n` granules of part `p`: in order, those of
      which the filter keeps anything */
  ghost function Expected<R>(q: Query<R>, p: nat, n: nat): seq<(nat, seq<R>)>
    requires p < |q.parts| && n <= |q.parts[p]|
  {
    if n == 0 then []
    else
      var rows := Kept(q.keep, q.parts[p][n - 1]);
      Expected(q, p, n - 1) + if rows == [] then [] else [(n - 1, rows)]
  }

  lemma TraceAppend<R>(msgs: seq<Message<R>>, m: Message<R>, p: nat)
    ensures Trace(msgs + [m], p) == Trace(msgs, p) + if m.part == Some(p) then [(m.granule, m.rows)] else []
  {
    assert (msgs + [m])[..|msgs|] == msgs;
  }

  ghost function Outgoing<R>(x: Worker<R>): seq<(nat, seq<R>)> {
    if x.outbox.Some? then [(x.outbox.value.granule, x.outbox.value.rows)] else []
  }

  /** For a worker on part `p`: what has arrived and what it is sending are what its
      scanned granules should give. */
  ghost predicate InStep<R>(q: Query<R>, sent: seq<Message<R>>, x: Worker<R>) {
    x.part.Some? && x.part.value < |q.parts| && x.granule <= |q.parts[x.part.value]| ==>
      && (x.outbox.Some? ==> x.outbox.value.part == x.part)
      && Trace(sent, x.part.value) + Outgoing(x) == Expected(q, x.part.value, x.granule)
  }

  ghost predicate AllInStep<R>(q: Query<R>, s: State<R>) {
    && (forall w :: 0 <= w < |s.workers| ==> InStep(q, s.delivered + s.queue, s.workers[w]))
    && (forall w :: 0 <= w < |s.workers| && s.workers[w].part.None? ==> s.workers[w].outbox.None?)
  }

  /** No two workers are on the same part. */
  ghost predicate OnePartEach<R>(s: State<R>) {
    forall v, w :: 0 <= v < w < |s.workers| && s.workers[v].part.Some? ==> s.workers[v].part != s.workers[w].part
  }

  ghost predicate NobodyOn<R>(s: State<R>, p: nat) {
    forall w :: 0 <= w < |s.workers| ==> s.workers[w].part != Some(p)
  }

  /** Parts that a worker has left are complete; parts not claimed have sent nothing. */
  ghost predicate OthersSettled<R>(q: Query<R>, s: State<R>) {
    && (forall p :: 0 <= p < |q.parts| && p < s.next && NobodyOn(s, p) ==>
         Trace(s.delivered + s.queue, p) == Expected(q, p, |q.parts[p]|))
    && (forall p :: s.next <= p < |q.parts| ==> Trace(s.delivered + s.queue, p) == [])
  }

  ghost predicate Ordered<R>(q: Query<R>, s: State<R>) {
    AllInStep(q, s) && OnePartEach(s) && OthersSettled(q, s)
  }

  lemma ClaimKeepsOrder<R>(q: Query<R>, s: State<R>, w: nat)
    requires WellShaped(q, s) && Ordered(q, s) && Enabled(q, s, Claim(w)) && !q.aggregating
    ensures Ordered(q, Apply(q, s, Claim(w)))
  {
    hide Trace, Kept;
    var s', x := Apply(q, s, Claim(w)), s.workers[w];
    assert WorkerOk(q, s, x) && InStep(q, s.delivered + s.queue, x);
    forall v | 0 <= v < |s.workers| ensures InStep(q, s'.delivered + s'.queue, s'.workers[v]) {
      assert WorkerOk(q, s, s.workers[v]) && InStep(q, s.delivered + s.queue, s.workers[v]);
    }
    forall v | 0 <= v < |s.workers| ensures s.workers[v].part != Some(s.next) {
      assert WorkerOk(q, s, s.workers[v]);
    }
    forall p | 0 <= p < |q.parts| && p < s'.next && NobodyOn(s', p)
      ensures Trace(s'.delivered + s'.queue, p) == Expected(q, p, |q.parts[p]|)
    {
      assert s'.workers[w].part != Some(p);
      if x.part != Some(p) {
        forall v | 0 <= v < |s.workers| ensures s.workers[v].part != Some(p) {
          assert s'.workers[v].part != Some(p);
        }
      }
    }
  }

  /** A step that leaves every worker on its part, and adds to the traffic only for a
      part that a worker is on, leaves the others settled. */
  lemma SettledStay<R>(q: Query<R>, s: State<R>, s': State<R>)
    requires OnePartEach(s) && OthersSettled(q, s)
    requires |s'.workers| == |s.workers| && s'.next == s.next
    requires forall v :: 0 <= v < |s.workers| ==> s'.workers[v].part == s.workers[v].part
    requires forall p :: 0 <= p < |q.parts| && NobodyOn(s, p) ==> Trace(s'.delivered + s'.queue, p) == Trace(s.delivered + s.queue, p)
    requires forall p :: s.next <= p < |q.parts| ==> NobodyOn(s, p)
    ensures OnePartEach(s') && OthersSettled(q, s')
  {
    forall p | 0 <= p < |q.parts| && NobodyOn(s', p) ensures NobodyOn(s, p) {
      forall v | 0 <= v < |s.workers| ensures s.workers[v].part != Some(p) {
        assert s'.workers[v].part != Some(p);
      }
    }
  }

  lemma UnclaimedHaveNobody<R>(q: Query<R>, s: State<R>)
    requires WellShaped(q, s)
    ensures forall p :: s.next <= p < |q.parts| ==> NobodyOn(s, p)
  {
    forall p, v | s.next <= p < |q.parts| && 0 <= v < |s.workers| ensures s.workers[v].part != Some(p) {
      assert WorkerOk(q, s, s.workers[v]);
    }
  }

  lemma ScanKeepsOrder<R>(q: Query<R>, s: State<R>, w: nat)
    requires WellShaped(q, s) && Ordered(q, s) && Enabled(q, s, Scan(w)) && !q.aggregating
    ensures Ordered(q, Apply(q, s, Scan(w)))
  {
    hide Trace, Expected, NobodyOn, OthersSettled, WorkerOk;
    var s', x, sent := Apply(q, s, Scan(w)), s.workers[w], s.delivered + s.queue;
    UnclaimedHaveNobody(q, s);
    SettledStay(q, s, s');
    assert InStep(q, sent, x);
    ScanInStep(q, sent, w, x);
    hide InStep, AfterScan, OnePartEach;
    forall v | 0 <= v < |s.workers| ensures InStep(q, sent, s'.workers[v]) {
      if v != w { assert InStep(q, sent, s.workers[v]); }
    }
  }

  lemma ScanInStep<R>(q: Query<R>, sent: seq<Message<R>>, w: nat, x: Worker<R>)
    requires InStep(q, sent, x) && Reading(q, x) && x.outbox.None? && !q.aggregating
    ensures InStep(q, sent, AfterScan(q, w, x)) && AfterScan(q, w, x).part == x.part
  {
  }

  lemma OthersInStep<R>(q: Query<R>, sent: seq<Message<R>>, m: Message<R>, y: Worker<R>)
    requires InStep(q, sent, y) && m.part.Some? && m.part != y.part
    ensures InStep(q, sent + [m], y)
  {
    if y.part.Some? {
      TraceAppend(sent, m, y.part.value);
    }
  }

  lemma SenderInStep<R>(q: Query<R>, sent: seq<Message<R>>, x: Worker<R>)
    requires InStep(q, sent, x) && x.outbox.Some?
    ensures InStep(q, sent + [x.outbox.value], x.(outbox := None))
  {
    if x.part.Some? {
      TraceAppend(sent, x.outbox.value, x.part.value);
    }
  }

  lemma SendKeepsOrder<R>(q: Query<R>, s: State<R>, w: nat)
    requires WellShaped(q, s) && Ordered(q, s) && Enabled(q, s, Send(w)) && s.open
    ensures Ordered(q, Apply(q, s, Send(w)))
  {
    var s', x := Apply(q, s, Send(w)), s.workers[w];
    var m, sent := x.outbox.value, s.delivered + s.queue;
    assert s'.delivered + s'.queue == sent + [m];
    assert WorkerOk(q, s, x) && InStep(q, sent, x) && x.part.Some?;
    forall v | 0 <= v < |s.workers| ensures InStep(q, sent + [m], s'.workers[v]) {
      if v == w {
        SenderInStep(q, sent, x);
      } else {
        OthersInStep(q, sent, m, s.workers[v]);
      }
    }
    forall p | 0 <= p < |q.parts| && NobodyOn(s, p) ensures Trace(sent + [m], p) == Trace(sent, p) {
      TraceAppend(sent, m, p);
    }
    UnclaimedHaveNobody(q, s);
    SettledStay(q, s, s');
  }

  lemma ExitKeepsOrder<R>(q: Query<R>, s: State<R>, w: nat)
    requires WellShaped(q, s) && Ordered(q, s) && Enabled(q, s, Exit(w))
    ensures Ordered(q, Apply(q, s, Exit(w)))
  {
    var s' := Apply(q, s, Exit(w));
    forall v | 0 <= v < |s.workers| ensures InStep(q, s'.delivered + s'.queue, s'.workers[v]) {
      assert InStep(q, s.delivered + s.queue, s.workers[v]);
    }
    UnclaimedHaveNobody(q, s);
    SettledStay(q, s, s');
  }

  lemma StepKeepsOrder<R>(q: Query<R>, s: State<R>, step: Step)
    requires WellShaped(q, s) && Ordered(q, s) && Enabled(q, s, step) && !q.aggregating && Apply(q, s, step).open
    ensures Ordered(q, Apply(q, s, step))
  {
    match step
    case Claim(w) => ClaimKeepsOrder(q, s, w);
    case Scan(w) => ScanKeepsOrder(q, s, w);
    case Send(w) => SendKeepsOrder(q, s, w);
    case Exit(w) => ExitKeepsOrder(q, s, w);
    case Receive =>
      assert (s.delivered + [s.queue[0]]) + s.queue[1..] == s.delivered + s.queue;
    case DropReceiver =>
  }

  lemma {:induction false} RunKeepsOrder<R>(q: Query<R>, states: seq<State<R>>, steps: seq<Step>)
    requires IsRun(q, states, steps) && Initial(q, states[0]) && !q.aggregating && states[|steps|].open
    ensures Ordered(q, states[|steps|])
  {
    if steps == [] {
    } else {
      var n := |steps| - 1;
      assert states[n].open;
      RunKeepsOrder(q, states[..n + 1], steps[..n]);
      RunKeepsInvariant(q, states[..n + 1], steps[..n]);
      StepKeepsOrder(q, states[n], steps[n]);
    }
  }

  /** When the stream ends, each part's batches have arrived in granule order, each
      once: those granules of which the filter keeps a row. */
  lemma PartsArriveInOrder<R>(q: Query<R>, states: seq<State<R>>, steps: seq<Step>, p: nat)
    requires IsRun(q, states, steps) && Initial(q, states[0]) && !q.aggregating && EndOfStream(states[|steps|])
    requires p < |q.parts|
    ensures Trace(states[|steps|].delivered, p) == Expected(q, p, |q.parts[p]|)
  {
    var s := states[|steps|];
    RunKeepsOrder(q, states, steps);
    RunKeepsInvariant(q, states, steps);
    assert s.delivered + s.queue == s.delivered;
    assert WorkerOk(q, s, s.workers[0]);
    forall w | 0 <= w < |s.workers| ensures s.workers[w].part != Some(p) {
      assert WorkerOk(q, s, s.workers[w]);
    }
  }
}
