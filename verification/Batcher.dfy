/** Batching writers: rows are queued, drained under a lock, and delivered outside it.

    The classes are `LogIngestWriter` and `LogIngestShipper` used by one thread. The state machine
    below is either of them used by any number of threads: appending and draining are atomic, under
    the lock; delivering a batch and adding its size to a counter are separate steps outside it, so
    they interleave with everything else. */
module Batcher {
  import opened Wrappers

  // ---------------------------------------------------------------- the log-ingest writer

  class LogIngestWriter<T> {
    const batchSize: int
    const flushSeconds: real
    const connected: bool
    var queue: seq<T>
    var insertedTotal: nat
    var lastFlush: real
    /** The rows the database has committed. */
    var table: seq<T>

    constructor (batchSize: int, flushSeconds: real, connected: bool, now: real)
      ensures this.batchSize == batchSize && this.flushSeconds == flushSeconds && this.connected == connected
      ensures queue == [] && insertedTotal == 0 && lastFlush == now && table == []
    {
      this.batchSize, this.flushSeconds, this.connected := batchSize, flushSeconds, connected;
      queue, insertedTotal, lastFlush, table := [], 0, now, [];
    }

    predicate ShouldFlush(now: real)
      reads this`queue, this`lastFlush
    {
      |queue| >= batchSize || now - lastFlush >= flushSeconds
    }

    /** Drain the queue into the database: the rows written, or None when the insert raised. */
    method Flush(now: real, insertFails: bool) returns (written: Option<nat>)
      modifies this`queue, this`insertedTotal, this`lastFlush, this`table
      ensures old(queue) == [] || !connected ==>
                written == Some(0) && queue == old(queue) && table == old(table) && insertedTotal == old(insertedTotal)
      ensures old(queue) != [] && connected ==>
                && queue == []
                && (if insertFails then
                      written == None && table == old(table) && insertedTotal == old(insertedTotal)
                    else
                      && written == Some(|old(queue)|)
                      && table == old(table) + old(queue)
                      && insertedTotal == old(insertedTotal) + |old(queue)|)
      ensures lastFlush == if old(queue) == [] || connected then now else old(lastFlush)
    {
      if queue == [] {
        lastFlush := now;
        return Some(0);
      }
      if !connected {
        return Some(0);
      }
      var batch := queue;
      queue := [];
      lastFlush := now;
      if insertFails {
        return None;
      }
      table := table + batch;
      insertedTotal := insertedTotal + |batch|;
      return Some(|batch|);
    }

    /** Append rows; a full or overdue queue is flushed at once, and the flush may raise. */
    method AppendMany(rows: seq<T>, now: real, insertFails: bool) returns (raised: bool)
      modifies this`queue, this`insertedTotal, this`lastFlush, this`table
      ensures !raised ==> table + queue == old(table) + old(queue) + rows
      ensures !raised ==> insertedTotal - |table| == old(insertedTotal) - |old(table)|
      ensures raised ==>
                && connected && insertFails && queue == []
                && table == old(table) && insertedTotal == old(insertedTotal)
      ensures connected && batchSize >= 1 ==> |queue| < batchSize
      ensures var due := |old(queue) + rows| >= batchSize || now - old(lastFlush) >= flushSeconds;
              && (raised <==> due && connected && insertFails && old(queue) + rows != [])
              && (!due || !connected || old(queue) + rows == [] ==> queue == old(queue) + rows && table == old(table))
              && (due && connected && !insertFails ==> queue == [] && table == old(table) + old(queue) + rows)
              && lastFlush == if due && (connected || old(queue) + rows == []) then now else old(lastFlush)
    {
      queue := queue + rows;
      assert table + queue == old(table) + old(queue) + rows;
      if ShouldFlush(now) {
        var written := Flush(now, insertFails);
        assert queue == [] ==> table + queue == table;
        return written.None?;
      }
      return false;
    }
  }

  // ---------------------------------------------------------------- the log shipper

  /** What a log record becomes: its own transport's record is ignored, a record that cannot be
      rendered is dropped, any other is one row. */
  datatype Emission<T> = Ignored | Unrenderable | Rendered(row: T)

  class LogIngestShipper<T> {
    const batchSize: nat
    var buffer: seq<T>
    var shipped: nat
    var dropped: nat
    /** The rows the ingest service has accepted. */
    var received: seq<T>

    constructor (batchSize: int)
      ensures this.batchSize == (if batchSize < 1 then 1 else batchSize)
      ensures buffer == [] && shipped == 0 && dropped == 0 && received == []
    {
      this.batchSize := if batchSize < 1 then 1 else batchSize;
      buffer, shipped, dropped, received := [], 0, 0, [];
    }

    /** Post the buffer; a batch that is not accepted is dropped and counted. */
    method Flush(accepted: bool)
      modifies this`buffer, this`shipped, this`dropped, this`received
      ensures buffer == []
      ensures received == old(received) + if accepted then old(buffer) else []
      ensures shipped == old(shipped) + if accepted then |old(buffer)| else 0
      ensures dropped == old(dropped) + if accepted then 0 else |old(buffer)|
    {
      if buffer == [] {
        return;
      }
      var batch := buffer;
      buffer := [];
      if accepted {
        received := received + batch;
        shipped := shipped + |batch|;
      } else {
        dropped := dropped + |batch|;
      }
    }

    /** Every record that is not ignored is counted or buffered, and the buffer stays below its bound. */
    method Emit(e: Emission<T>, accepted: bool)
      modifies this`buffer, this`shipped, this`dropped, this`received
      ensures shipped + dropped + |buffer| == old(shipped + dropped + |buffer|) + if e.Ignored? then 0 else 1
      ensures old(|buffer|) < batchSize ==> |buffer| < batchSize
      ensures !e.Rendered? ==>
                && buffer == old(buffer) && received == old(received) && shipped == old(shipped)
                && dropped == old(dropped) + if e.Unrenderable? then 1 else 0
      ensures e.Rendered? && |old(buffer)| + 1 < batchSize ==>
                && buffer == old(buffer) + [e.row]
                && received == old(received) && shipped == old(shipped) && dropped == old(dropped)
      ensures e.Rendered? && |old(buffer)| + 1 >= batchSize ==>
                && buffer == []
                && received == old(received) + (if accepted then old(buffer) + [e.row] else [])
                && shipped == old(shipped) + (if accepted then |old(buffer)| + 1 else 0)
                && dropped == old(dropped) + (if accepted then 0 else |old(buffer)| + 1)
    {
      if e.Ignored? {
        return;
      }
      if e.Unrenderable? {
        dropped := dropped + 1;
        return;
      }
      buffer := buffer + [e.row];
      if |buffer| >= batchSize {
        Flush(accepted);
      }
    }
  }

  // ---------------------------------------------------------------- any number of threads

  /** Where a drained batch is: being delivered, delivered or refused but not yet counted, or counted. */
  datatype Fate = InFlight | Delivered | Refused | Shipped | Dropped

  datatype Batch<T> = Batch(rows: seq<T>, fate: Fate)

  /** `appended` is the history of rows in the order the lock admitted them. */
  datatype State<T> = State(
    appended: seq<T>, unrendered: nat, queue: seq<T>, batches: seq<Batch<T>>, shipped: nat, dropped: nat)

  datatype Step<T> =
    | Append(rows: seq<T>)       // append, append_many, or the buffering half of emit
    | Unrender                   // emit of a record that cannot be rendered
    | Drain                      // the locked half of flush
    | Deliver(k: nat)            // the sink accepts batch k
    | Refuse(k: nat)             // the sink refuses it, or delivery raises
    | Count(k: nat)              // the flushing thread adds the batch to its counter

  function Move<T>(s: State<T>, k: nat, fate: Fate): State<T>
    requires k < |s.batches|
  {
    s.(batches := Moved(s.batches, k, fate))
  }

  function Apply<T>(s: State<T>, step: Step<T>): Option<State<T>> {
    match step
    case Append(rows) => Some(s.(appended := s.appended + rows, queue := s.queue + rows))
    case Unrender => Some(s.(unrendered := s.unrendered + 1, dropped := s.dropped + 1))
    case Drain =>
      if s.queue == [] then Some(s)
      else Some(s.(queue := [], batches := s.batches + [Batch(s.queue, InFlight)]))
    case Deliver(k) =>
      if k < |s.batches| && s.batches[k].fate.InFlight? then Some(Move(s, k, Delivered)) else None
    case Refuse(k) =>
      if k < |s.batches| && s.batches[k].fate.InFlight? then Some(Move(s, k, Refused)) else None
    case Count(k) =>
      if k >= |s.batches| then None
      else if s.batches[k].fate.Delivered? then
        Some(Move(s, k, Shipped).(shipped := s.shipped + |s.batches[k].rows|))
      else if s.batches[k].fate.Refused? then
        Some(Move(s, k, Dropped).(dropped := s.dropped + |s.batches[k].rows|))
      else None
  }

  function Run<T>(steps: seq<Step<T>>): Option<State<T>> {
    if steps == [] then Some(State([], 0, [], [], 0, 0))
    else
      match Run(steps[..|steps| - 1])
      case None => None
      case Some(s) => Apply(s, steps[|steps| - 1])
  }

  /** The rows of all batches, in the order they were drained. */
  function Drained<T>(batches: seq<Batch<T>>): seq<T> {
    if batches == [] then [] else Drained(batches[..|batches| - 1]) + batches[|batches| - 1].rows
  }

  /** How many rows sit in batches of one fate. */
  function RowsIn<T>(batches: seq<Batch<T>>, fate: Fate): nat {
    if batches == [] then 0 else RowsIn(batches[..|batches| - 1], fate) + RowsOf(batches[|batches| - 1], fate)
  }

  function RowsOf<T>(batch: Batch<T>, fate: Fate): nat {
    if batch.fate == fate then |batch.rows| else 0
  }

  function Moved<T>(batches: seq<Batch<T>>, k: nat, fate: Fate): seq<Batch<T>>
    requires k < |batches|
  {
    batches[k := Batch(batches[k].rows, fate)]
  }

  lemma MovedFront<T>(batches: seq<Batch<T>>, k: nat, fate: Fate)
    requires k < |batches|
    ensures var n := |batches| - 1;
            && Moved(batches, k, fate)[..n] == (if k < n then Moved(batches[..n], k, fate) else batches[..n])
            && Moved(batches, k, fate)[n] == if k < n then batches[n] else Batch(batches[n].rows, fate)
  {
  }

  lemma {:induction false} MoveKeepsOrder<T>(batches: seq<Batch<T>>, k: nat, fate: Fate)
    requires k < |batches|
    ensures Drained(Moved(batches, k, fate)) == Drained(batches)
  {
    MovedFront(batches, k, fate);
    if k < |batches| - 1 {
      MoveKeepsOrder(batches[..|batches| - 1], k, fate);
    }
  }

  lemma {:induction false} MoveCounts<T>(batches: seq<Batch<T>>, k: nat, fate: Fate, f: Fate)
    requires k < |batches|
    ensures RowsIn(Moved(batches, k, fate), f) + (if batches[k].fate == f then |batches[k].rows| else 0)
            == RowsIn(batches, f) + (if fate == f then |batches[k].rows| else 0)
  {
    MovedFront(batches, k, fate);
    var front, moved := batches[..|batches| - 1], Moved(batches, k, fate);
    assert RowsIn(moved, f) == RowsIn(moved[..|front|], f) + RowsOf(moved[|front|], f);
    assert RowsIn(batches, f) == RowsIn(front, f) + RowsOf(batches[|front|], f);
    if k < |front| {
      MoveCounts(front, k, fate, f);
    }
  }

  /** Moving a batch to another fate changes no order, and moves its rows from one count to the other. */
  lemma MoveRows<T>(batches: seq<Batch<T>>, k: nat, fate: Fate, f: Fate)
    requires k < |batches|
    ensures Drained(Moved(batches, k, fate)) == Drained(batches)
    ensures RowsIn(Moved(batches, k, fate), f) + (if batches[k].fate == f then |batches[k].rows| else 0)
            == RowsIn(batches, f) + (if fate == f then |batches[k].rows| else 0)
  {
    MoveKeepsOrder(batches, k, fate);
    MoveCounts(batches, k, fate, f);
  }

  lemma DrainRows<T>(batches: seq<Batch<T>>, rows: seq<T>, f: Fate)
    ensures Drained(batches + [Batch(rows, InFlight)]) == Drained(batches) + rows
    ensures RowsIn(batches + [Batch(rows, InFlight)], f) == RowsIn(batches, f) + if f.InFlight? then |rows| else 0
  {
    assert (batches + [Batch(rows, InFlight)])[..|batches|] == batches;
  }

  ghost predicate Conserved<T>(s: State<T>) {
    && Drained(s.batches) + s.queue == s.appended
    && s.shipped == RowsIn(s.batches, Shipped)
    && s.dropped == s.unrendered + RowsIn(s.batches, Dropped)
  }

  lemma StepConserves<T>(s: State<T>, step: Step<T>)
    requires Conserved(s) && Apply(s, step).Some?
    ensures Conserved(Apply(s, step).value)
  {
    match step
    case Append(rows) =>
      assert Drained(s.batches) + (s.queue + rows) == (Drained(s.batches) + s.queue) + rows;
    case Unrender =>
    case Drain =>
      DrainRows(s.batches, s.queue, Shipped);
      DrainRows(s.batches, s.queue, Dropped);
    case Deliver(k) => HandlingConserves(s, k, Delivered);
    case Refuse(k) => HandlingConserves(s, k, Refused);
    case Count(k) => CountingConserves(s, k);
  }

  lemma HandlingConserves<T>(s: State<T>, k: nat, fate: Fate)
    requires Conserved(s) && k < |s.batches| && s.batches[k].fate.InFlight? && (fate.Delivered? || fate.Refused?)
    ensures Conserved(Move(s, k, fate))
  {
    MoveRows(s.batches, k, fate, Shipped);
    MoveRows(s.batches, k, fate, Dropped);
  }

  lemma CountingConserves<T>(s: State<T>, k: nat)
    requires Conserved(s) && Apply(s, Count(k)).Some?
    ensures Conserved(Apply(s, Count(k)).value)
  {
    var fate := if s.batches[k].fate.Delivered? then Shipped else Dropped;
    MoveRows(s.batches, k, fate, Shipped);
    MoveRows(s.batches, k, fate, Dropped);
  }

  lemma {:induction false} RunConserves<T>(steps: seq<Step<T>>)
    requires Run(steps).Some?
    ensures Conserved(Run(steps).value)
  {
    if steps != [] {
      RunConserves(steps[..|steps| - 1]);
      StepConserves(Run(steps[..|steps| - 1]).value, steps[|steps| - 1]);
    }
  }

  lemma {:induction false} FatesAddUp<T>(batches: seq<Batch<T>>)
    ensures |Drained(batches)| == RowsIn(batches, InFlight) + RowsIn(batches, Delivered) + RowsIn(batches, Refused)
                                  + RowsIn(batches, Shipped) + RowsIn(batches, Dropped)
  {
    if batches != [] {
      FatesAddUp(batches[..|batches| - 1]);
    }
  }

  /** Whatever the interleaving, the drained batches in drain order followed by the queue are the rows
      in append order; and every row is shipped, dropped, queued, or in a batch still being handled. */
  lemma NothingIsLostOrDuplicated<T>(steps: seq<Step<T>>)
    requires Run(steps).Some?
    ensures var s := Run(steps).value;
            && Drained(s.batches) + s.queue == s.appended
            && s.shipped + s.dropped + |s.queue|
               + RowsIn(s.batches, InFlight) + RowsIn(s.batches, Delivered) + RowsIn(s.batches, Refused)
               == |s.appended| + s.unrendered
  {
    RunConserves(steps);
    FatesAddUp(Run(steps).value.batches);
  }

  /** Row `i` of the append order is row `j` of batch `k`. */
  ghost predicate PlacedAt<T>(batches: seq<Batch<T>>, i: nat, k: nat, j: nat) {
    k < |batches| && j < |batches[k].rows| && i == |Drained(batches[..k])| + j
  }

  /** A drained row's place: the batch that holds the i-th appended row, which holds it there. */
  lemma {:induction false} EveryRowHasPlace<T>(batches: seq<Batch<T>>, i: nat) returns (k: nat, j: nat)
    requires i < |Drained(batches)|
    ensures PlacedAt(batches, i, k, j) && Drained(batches)[i] == batches[k].rows[j]
  {
    var n := |batches| - 1;
    if i < |Drained(batches[..n])| {
      k, j := EveryRowHasPlace(batches[..n], i);
      assert batches[..n][..k] == batches[..k];
    } else {
      k, j := n, i - |Drained(batches[..n])|;
    }
  }

  lemma {:induction false} DrainedGrows<T>(batches: seq<Batch<T>>, k: nat, l: nat)
    requires k < l <= |batches|
    ensures |Drained(batches[..k])| + |batches[k].rows| <= |Drained(batches[..l])|
    decreases l
  {
    assert batches[..l][..l - 1] == batches[..l - 1];
    if k < l - 1 {
      DrainedGrows(batches, k, l - 1);
    }
  }

  /** The place is the only one: no row is in two batches or twice in one. */
  lemma PlaceIsUnique<T>(batches: seq<Batch<T>>, i: nat, k: nat, j: nat, l: nat, m: nat)
    requires PlacedAt(batches, i, k, j) && PlacedAt(batches, i, l, m)
    ensures k == l && j == m
  {
    if k < l {
      DrainedGrows(batches, k, l);
    } else if l < k {
      DrainedGrows(batches, l, k);
    }
  }

  lemma PlaceIsDrained<T>(batches: seq<Batch<T>>, i: nat, k: nat, j: nat)
    ensures PlacedAt(batches, i, k, j) ==> i < |Drained(batches)|
  {
    if PlacedAt(batches, i, k, j) {
      DrainedGrows(batches, k, |batches|);
      assert batches[..|batches|] == batches;
    }
  }

  /** Every appended row is at exactly one place of one drained batch, or at one place of the queue. */
  lemma EveryRowHasOnePlace<T>(steps: seq<Step<T>>, i: nat)
    requires Run(steps).Some? && i < |Run(steps).value.appended|
    ensures var s := Run(steps).value;
            if i >= |Drained(s.batches)| then
              && i - |Drained(s.batches)| < |s.queue| && s.queue[i - |Drained(s.batches)|] == s.appended[i]
              && forall k: nat, j: nat :: !PlacedAt(s.batches, i, k, j)
            else
              exists k: nat, j: nat :: PlacedAt(s.batches, i, k, j) && s.batches[k].rows[j] == s.appended[i]
                && forall l: nat, m: nat | PlacedAt(s.batches, i, l, m) :: l == k && m == j
  {
    var s := Run(steps).value;
    RunConserves(steps);
    if i < |Drained(s.batches)| {
      var k, j := EveryRowHasPlace(s.batches, i);
      forall l: nat, m: nat | PlacedAt(s.batches, i, l, m) ensures l == k && m == j {
        PlaceIsUnique(s.batches, i, k, j, l, m);
      }
    } else {
      forall k: nat, j: nat ensures PlacedAt(s.batches, i, k, j) ==> i < |Drained(s.batches)| {
        PlaceIsDrained(s.batches, i, k, j);
      }
    }
  }

  // ---------------------------------------------------------------- what the steps do

  /** The rows of all appends, in order. */
  function RowsAppended<T>(steps: seq<Step<T>>): seq<T> {
    if steps == [] then []
    else
      var last := steps[|steps| - 1];
      RowsAppended(steps[..|steps| - 1]) + if last.Append? then last.rows else []
  }

  function Unrendered<T>(steps: seq<Step<T>>): nat {
    if steps == [] then 0
    else Unrendered(steps[..|steps| - 1]) + if steps[|steps| - 1].Unrender? then 1 else 0
  }

  /** The append order is that of the appends of the run, whatever happened in between. */
  lemma {:induction false} AppendOrder<T>(steps: seq<Step<T>>)
    requires Run(steps).Some?
    ensures Run(steps).value.appended == RowsAppended(steps) && Run(steps).value.unrendered == Unrendered(steps)
  {
    if steps != [] {
      AppendOrder(steps[..|steps| - 1]);
    }
  }

  /** Runs start with nothing queued and go on by any step that is possible. */
  lemma RunsGoOn<T>(steps: seq<Step<T>>, step: Step<T>)
    ensures Run<T>([]) == Some(State([], 0, [], [], 0, 0))
    ensures Run(steps).Some? ==> Run(steps + [step]) == Apply(Run(steps).value, step)
  {
    assert (steps + [step])[..|steps|] == steps;
  }

  /** Appending, refusing to render and draining never wait; a batch in flight can be delivered or refused,
      and one that was can be counted. */
  lemma StepsAreEnabled<T>(s: State<T>, rows: seq<T>, k: nat)
    ensures Apply(s, Append(rows)).Some? && Apply(s, Unrender).Some? && Apply(s, Drain).Some?
    ensures s.queue == [] ==> Apply(s, Drain) == Some(s)
    ensures Apply(s, Deliver(k)).Some? <==> k < |s.batches| && s.batches[k].fate == InFlight
    ensures Apply(s, Refuse(k)).Some? <==> k < |s.batches| && s.batches[k].fate == InFlight
    ensures Apply(s, Count(k)).Some? <==>
            k < |s.batches| && (s.batches[k].fate == Delivered || s.batches[k].fate == Refused)
  {
  }

  /** A flush that nothing interrupts ships or drops the whole queue as one batch, and touches no other. */
  lemma FlushGetsThrough<T>(s: State<T>, accepted: bool)
    returns (drained: State<T>, handled: State<T>, counted: State<T>)
    requires s.queue != []
    ensures Apply(s, Drain) == Some(drained)
    ensures Apply(drained, if accepted then Deliver(|s.batches|) else Refuse(|s.batches|)) == Some(handled)
    ensures Apply(handled, Count(|s.batches|)) == Some(counted)
    ensures counted.queue == [] && counted.appended == s.appended && counted.unrendered == s.unrendered
    ensures counted.batches == s.batches + [Batch(s.queue, if accepted then Shipped else Dropped)]
    ensures counted.shipped == s.shipped + if accepted then |s.queue| else 0
    ensures counted.dropped == s.dropped + if accepted then 0 else |s.queue|
  {
    drained := Apply(s, Drain).value;
    handled := Apply(drained, if accepted then Deliver(|s.batches|) else Refuse(|s.batches|)).value;
    counted := Apply(handled, Count(|s.batches|)).value;
  }
}
