/** The publisher wrappers: batching into a buffer, and handing over through a queue to a worker. */
module Publishers {
  import opened Bits

  /** A measurement or a command; opaque to the wrappers. */
  type Data = int

  /** One call of `publish`: what is published and the keyword arguments of the call. */
  datatype Item = Item(data: Data, kwargs: map<string, string>)

  // ======== BasicBufferedPublisher ========

  /** A call that reaches the wrapped publisher. */
  datatype Call = Passed(item: Item) | Closed

  /** The wrapped publisher, as the log of what reached it. */
  class Sink {
    var calls: seq<Call>

    constructor ()
      ensures calls == []
    {
      calls := [];
    }

    method Publish(item: Item)
      modifies this
      ensures calls == old(calls) + [Passed(item)]
    {
      calls := calls + [Passed(item)];
    }

    method Close()
      modifies this
      ensures calls == old(calls) + [Closed]
    {
      calls := calls + [Closed];
    }
  }

  /** The calls that pass on buffered data: without keyword arguments. */
  function Bare(data: seq<Data>): seq<Call> {
    seq(|data|, i requires 0 <= i < |data| => Passed(Item(data[i], map[])))
  }

  function DataOf(items: seq<Item>): seq<Data> {
    seq(|items|, i requires 0 <= i < |items| => items[i].data)
  }

  datatype Batch = Batch(calls: seq<Call>, buffer: seq<Data>)

  function PublishStep(size: int, b: Batch, item: Item): Batch {
    var filled := b.buffer + [item.data];
    if |filled| >= size then Batch(b.calls + Bare(filled), []) else Batch(b.calls, filled)
  }

  /** Closing sends the buffer, without clearing it, and then closes the wrapped publisher. */
  function CloseStep(b: Batch): Batch {
    Batch(b.calls + Bare(b.buffer) + [Closed], b.buffer)
  }

  class BasicBufferedPublisher {
    const publisher: Sink
    const bufferSize: int
    var buffer: seq<Data>

    ghost function State(): Batch
      reads this, publisher
    {
      Batch(publisher.calls, buffer)
    }

    constructor (publisher: Sink, bufferSize: int)
      ensures this.publisher == publisher && this.bufferSize == bufferSize && buffer == []
    {
      this.publisher, this.bufferSize, buffer := publisher, bufferSize, [];
    }

    method PublishBatch()
      modifies publisher
      ensures publisher.calls == old(publisher.calls) + Bare(buffer)
    {
      for i := 0 to |buffer|
        invariant publisher.calls == old(publisher.calls) + Bare(buffer)[..i]
      {
        publisher.Publish(Item(buffer[i], map[]));
      }
      assert Bare(buffer)[..|buffer|] == Bare(buffer);
    }

    method Publish(item: Item)
      modifies this`buffer, publisher
      ensures State() == PublishStep(bufferSize, old(State()), item)
    {
      buffer := buffer + [item.data];
      if |buffer| >= bufferSize {
        PublishBatch();
        buffer := [];
      }
    }

    method Close()
      modifies publisher
      ensures State() == CloseStep(old(State()))
    {
      PublishBatch();
      publisher.Close();
    }
  }

  ghost function PublishAll(size: int, items: seq<Item>): Batch {
    if items == [] then Batch([], [])
    else PublishStep(size, PublishAll(size, items[..|items| - 1]), items[|items| - 1])
  }

  /** The size of the last, incomplete batch of `n` items. */
  function Leftover(n: nat, size: int): (r: nat)
    ensures r <= n
  {
    if size <= 1 then 0 else n % size
  }

  /** Before the close, what was delivered followed by what is buffered is the data that was
      accepted, without its keyword arguments, and the buffer holds the remainder of the last
      batch. */
  lemma {:induction false} BufferConserves(size: int, items: seq<Item>)
    ensures var b := PublishAll(size, items);
            b.calls + Bare(b.buffer) == Bare(DataOf(items)) && |b.buffer| == Leftover(|items|, size)
  {
    if items != [] {
      var k := |items| - 1;
      BufferConserves(size, items[..k]);
      var b := PublishAll(size, items[..k]);
      assert Bare(b.buffer + [items[k].data]) == Bare(b.buffer) + [Passed(Item(items[k].data, map[]))];
      assert Bare(DataOf(items)) == Bare(DataOf(items[..k])) + [Passed(Item(items[k].data, map[]))];
      NextLeftover(k, size);
    }
  }

  lemma NextLeftover(n: nat, size: int)
    ensures Leftover(n + 1, size) == if Leftover(n, size) + 1 >= size then 0 else Leftover(n, size) + 1
  {
    if size > 1 {
      if n % size + 1 == size {
        RemainderIsUnique(n + 1, size, n / size + 1, 0);
      } else {
        RemainderIsUnique(n + 1, size, n / size, n % size + 1);
      }
    }
  }

  /** Closing once delivers all data accepted, in order, and then closes the wrapped publisher.
      Closing twice delivers the last partial batch again, after the wrapped publisher has been
      closed, so it is harmless exactly when there is no partial batch. */
  lemma CloseDeliversAll(size: int, items: seq<Item>)
    ensures var once, all := CloseStep(PublishAll(size, items)), Bare(DataOf(items));
            && once.calls == all + [Closed]
            && CloseStep(once).calls == all + [Closed] + all[|items| - Leftover(|items|, size)..] + [Closed]
            && (CloseStep(once).calls == all + [Closed] + [Closed] <==> Leftover(|items|, size) == 0)
  {
    var b, all := PublishAll(size, items), Bare(DataOf(items));
    BufferConserves(size, items);
    assert Bare(b.buffer) == all[|items| - |b.buffer|..];
    assert |CloseStep(CloseStep(b)).calls| == |all| + 2 + |b.buffer|;
  }

  // ======== QueuedPublisher ========

  datatype Worker = AtCheck | AtEmptyCheck | AtGet | Publishing(item: Item) | Exited

  datatype Closer = Open | Joining | InnerClosed

  datatype Queued = Queued(
    waitForQueue: bool,
    capacity: nat,              // 0: unbounded
    queue: seq<Item>,
    putting: map<nat, Item>,    // producers past the stop check, with what they put
    stop: bool,
    worker: Worker,
    closer: Closer,
    puts: seq<Item>,            // every completed put, in order
    delivered: seq<Item>,       // every item the inner publisher got, in order
    putsAtStop: nat)            // completed puts when the stop event was set

  /** One atomic step of a producer, of the worker, or of the closer. */
  datatype Action =
    | StartPublish(producer: nat, item: Item)
    | Put(producer: nat)
    | WorkerCheck
    | WorkerEmptyCheck
    | WorkerGet
    | WorkerTimeout
    | WorkerPublish
    | SetStop
    | Join

  function Start(waitForQueue: bool, capacity: nat): Queued {
    Queued(waitForQueue, capacity, [], map[], false, AtCheck, Open, [], [], 0)
  }

  predicate Enabled(q: Queued, a: Action) {
    match a
    case StartPublish(p, _) => p !in q.putting
    case Put(p) => p in q.putting && (q.capacity == 0 || |q.queue| < q.capacity)
    case WorkerCheck => q.worker.AtCheck?
    case WorkerEmptyCheck => q.worker.AtEmptyCheck?
    case WorkerGet => q.worker.AtGet? && q.queue != []
    case WorkerTimeout => q.worker.AtGet? && q.queue == []
    case WorkerPublish => q.worker.Publishing?
    case SetStop => q.closer.Open?
    case Join => q.closer.Joining? && q.worker.Exited?
  }

  function Step(q: Queued, a: Action): Queued
    requires Enabled(q, a)
  {
    match a
    case StartPublish(p, item) => if q.stop then q else q.(putting := q.putting[p := item])
    case Put(p) => q.(queue := q.queue + [q.putting[p]], puts := q.puts + [q.putting[p]], putting := q.putting - {p})
    case WorkerCheck => q.(worker := if !q.stop then AtGet else if q.waitForQueue then AtEmptyCheck else Exited)
    case WorkerEmptyCheck => q.(worker := if q.queue == [] then Exited else AtGet)
    case WorkerGet => q.(worker := Publishing(q.queue[0]), queue := q.queue[1..])
    case WorkerTimeout => q.(worker := AtCheck)
    case WorkerPublish => q.(worker := AtCheck, delivered := q.delivered + [q.worker.item])
    case SetStop => q.(stop := true, closer := Joining, putsAtStop := |q.puts|)
    case Join => q.(closer := InnerClosed)
  }

  function InFlight(q: Queued): seq<Item> {
    if q.worker.Publishing? then [q.worker.item] else []
  }

  ghost predicate Inv(q: Queued) {
    && q.puts == q.delivered + InFlight(q) + q.queue
    && q.putsAtStop <= |q.puts|
    && (q.stop <==> !q.closer.Open?)
    && (q.worker.AtEmptyCheck? || q.worker.Exited? ==> q.stop)
    && (q.worker.AtEmptyCheck? ==> q.waitForQueue)
    && (q.waitForQueue && q.worker.Exited? ==> q.putsAtStop <= |q.delivered|)
    && (q.closer.InnerClosed? ==> q.worker.Exited?)
    && (q.capacity > 0 ==> |q.queue| <= q.capacity)
  }

  /** A run: each state follows from the one before by an enabled action. */
  ghost predicate Run(states: seq<Queued>, actions: seq<Action>) {
    && |states| == |actions| + 1
    && (exists wait, capacity :: states[0] == Start(wait, capacity))
    && forall i: nat :: i < |actions| ==> StepAt(states, actions, i)
  }

  ghost predicate StepAt(states: seq<Queued>, actions: seq<Action>, i: nat)
    requires i < |actions| && i + 1 < |states|
  {
    Enabled(states[i], actions[i]) && states[i + 1] == Step(states[i], actions[i])
  }

  lemma StepKeepsConservation(q: Queued, a: Action)
    requires q.puts == q.delivered + InFlight(q) + q.queue && Enabled(q, a)
    ensures var r := Step(q, a); r.puts == r.delivered + InFlight(r) + r.queue
  {
    match a
    case Put(p) => assert q.delivered + InFlight(q) + (q.queue + [q.putting[p]]) == q.puts + [q.putting[p]];
    case WorkerGet => assert q.queue == [q.queue[0]] + q.queue[1..];
    case WorkerPublish => assert q.delivered + [q.worker.item] + [] == q.delivered + [q.worker.item];
    case _ =>
  }

  lemma StepKeepsInv(q: Queued, a: Action)
    requires Inv(q) && Enabled(q, a)
    ensures Inv(Step(q, a))
  {
    StepKeepsConservation(q, a);
  }

  /** From `q` to `r` nothing that was logged or decided is undone. */
  ghost predicate Grows(q: Queued, r: Queued) {
    && q.puts <= r.puts && q.delivered <= r.delivered
    && q.waitForQueue == r.waitForQueue
    && (q.stop ==> r.stop && q.putsAtStop == r.putsAtStop)
    && (!q.stop && r.stop ==> |q.puts| <= r.putsAtStop)
    && (q.worker.Exited? ==> r.worker.Exited? && q.delivered == r.delivered)
  }

  lemma StepGrows(q: Queued, a: Action)
    requires Inv(q) && Enabled(q, a)
    ensures Grows(q, Step(q, a))
  {}

  lemma {:induction false} RunKeepsInv(states: seq<Queued>, actions: seq<Action>, k: nat)
    requires Run(states, actions) && k < |states|
    ensures Inv(states[k])
  {
    if k > 0 {
      RunKeepsInv(states, actions, k - 1);
      assert StepAt(states, actions, k - 1);
      StepKeepsInv(states[k - 1], actions[k - 1]);
    }
  }

  /** In every interleaving, what has been delivered is a prefix of the puts: nothing is
      reordered, duplicated or invented. */
  lemma DeliveredIsPrefixOfPuts(states: seq<Queued>, actions: seq<Action>, k: nat)
    requires Run(states, actions) && k < |states|
    ensures states[k].delivered <= states[k].puts
  {
    RunKeepsInv(states, actions, k);
  }

  lemma GrowsTransitive(a: Queued, b: Queued, c: Queued)
    requires Grows(a, b) && Grows(b, c)
    ensures Grows(a, c)
  {}

  lemma RunGrows(states: seq<Queued>, actions: seq<Action>, k: nat)
    requires Run(states, actions) && k < |actions|
    ensures Grows(states[k], states[k + 1])
  {
    RunKeepsInv(states, actions, k);
    assert StepAt(states, actions, k);
    StepGrows(states[k], actions[k]);
  }

  lemma {:induction false} LogsOnlyGrow(states: seq<Queued>, actions: seq<Action>, i: nat, j: nat)
    requires Run(states, actions) && i <= j < |states|
    ensures Grows(states[i], states[j])
    decreases j - i
  {
    if i < j {
      LogsOnlyGrow(states, actions, i, j - 1);
      RunGrows(states, actions, j - 1);
      GrowsTransitive(states[i], states[j - 1], states[j]);
    }
  }

  /** With `wait_for_queue`, once the inner publisher is closed it has received, in order, every
      item whose put completed before the stop event was set; and it receives nothing after. */
  lemma WaitingCloseDeliversEarlierPuts(states: seq<Queued>, actions: seq<Action>, i: nat, j: nat)
    requires Run(states, actions) && i <= j < |states|
    requires states[0].waitForQueue && !states[i].stop && states[j].closer.InnerClosed?
    ensures states[i].puts <= states[j].delivered
    ensures forall k :: j <= k < |states| ==> states[k].delivered == states[j].delivered
  {
    RunKeepsInv(states, actions, j);
    LogsOnlyGrow(states, actions, 0, j);
    LogsOnlyGrow(states, actions, i, j);
    DeliveredIsPrefixOfPuts(states, actions, j);
    forall k | j <= k < |states| ensures states[k].delivered == states[j].delivered {
      LogsOnlyGrow(states, actions, j, k);
    }
  }

  /** Without `wait_for_queue` a put that completed before the stop can be lost. */
  lemma HastyCloseCanLoseAPut(item: Item) returns (states: seq<Queued>, actions: seq<Action>)
    ensures Run(states, actions) && |states| == 6 && states[0] == Start(false, 0)
    ensures !states[2].stop && states[2].puts == [item]
    ensures states[5].closer.InnerClosed? && states[5].delivered == []
  {
    actions := [StartPublish(0, item), Put(0), SetStop, WorkerCheck, Join];
    var s0 := Start(false, 0);
    var s1 := Step(s0, actions[0]);
    var s2 := Step(s1, actions[1]);
    var s3 := Step(s2, actions[2]);
    var s4 := Step(s3, actions[3]);
    states := [s0, s1, s2, s3, s4, Step(s4, actions[4])];
  }

  /** Even with `wait_for_queue`, a publish that passed the stop check before the stop was set can
      put its item after the worker has gone: the promise covers completed puts only. */
  lemma LatePutCanBeLost(item: Item) returns (states: seq<Queued>, actions: seq<Action>)
    ensures Run(states, actions) && |states| == 7 && states[0] == Start(true, 0)
    ensures !states[1].stop && 0 in states[1].putting && states[1].putting[0] == item
    ensures states[6].closer.InnerClosed? && states[6].puts == [item] && states[6].delivered == []
  {
    actions := [StartPublish(0, item), SetStop, WorkerCheck, WorkerEmptyCheck, Put(0), Join];
    var s0 := Start(true, 0);
    var s1 := Step(s0, actions[0]);
    var s2 := Step(s1, actions[1]);
    var s3 := Step(s2, actions[2]);
    var s4 := Step(s3, actions[3]);
    var s5 := Step(s4, actions[4]);
    states := [s0, s1, s2, s3, s4, s5, Step(s5, actions[5])];
  }

  // ---- What a close loses, and that it ends ----

  lemma WaitForQueueIsFixed(states: seq<Queued>, actions: seq<Action>, i: nat)
    requires Run(states, actions) && i < |states|
    ensures states[i].waitForQueue == states[0].waitForQueue
  {
    LogsOnlyGrow(states, actions, 0, i);
  }

  /** The step with which the worker left. */
  lemma {:induction false} ExitStep(states: seq<Queued>, actions: seq<Action>, k: nat) returns (e: nat)
    requires Run(states, actions) && k < |states| && states[k].worker.Exited?
    ensures e < k && !states[e].worker.Exited? && states[e + 1].worker.Exited?
  {
    e := k - 1;
    if states[e].worker.Exited? {
      e := ExitStep(states, actions, k - 1);
    }
  }

  lemma LeavesOnlyAtACheck(q: Queued, a: Action)
    requires Inv(q) && Enabled(q, a) && !q.worker.Exited? && Step(q, a).worker.Exited?
    ensures a == if q.waitForQueue then WorkerEmptyCheck else WorkerCheck
    ensures InFlight(q) == [] && (q.waitForQueue ==> q.queue == [])
  {}

  lemma LeftoverQueue(delivered: seq<Item>, early: seq<Item>, puts: seq<Item>, queue: seq<Item>)
    requires delivered + early <= puts && puts == delivered + queue
    ensures queue == early + puts[|delivered + early|..]
  {
    assert puts[|delivered|..] == queue;
    assert (delivered + early)[|delivered|..] == early;
  }

  /** Once the worker has left, the lost puts are exactly those still queued, a suffix of all puts.
      With `wait_for_queue` they are the puts completed after the worker's last check for an empty
      queue; without it, also what was queued at its last check of the stop event. */
  lemma LostPutsAreTheQueue(states: seq<Queued>, actions: seq<Action>, k: nat) returns (e: nat)
    requires Run(states, actions) && k < |states| && states[k].worker.Exited?
    ensures e < k && !states[e].worker.Exited?
    ensures actions[e] == if states[0].waitForQueue then WorkerEmptyCheck else WorkerCheck
    ensures states[k].puts == states[k].delivered + states[k].queue
    ensures |states[e].puts| <= |states[k].puts|
    ensures states[k].queue == states[e].queue + states[k].puts[|states[e].puts|..]
    ensures states[0].waitForQueue ==> states[e].queue == [] && states[k].delivered == states[e].puts
  {
    e := ExitStep(states, actions, k);
    var q := states[e];
    assert StepAt(states, actions, e);
    RunKeepsInv(states, actions, e);
    LeavesOnlyAtACheck(q, actions[e]);
    WaitForQueueIsFixed(states, actions, e);
    RunKeepsInv(states, actions, k);
    LogsOnlyGrow(states, actions, e, k);
    LogsOnlyGrow(states, actions, e + 1, k);
    assert q.puts == q.delivered + q.queue;
    LeftoverQueue(q.delivered, q.queue, states[k].puts, states[k].queue);
  }

  /** What the worker does next on its own. */
  function WorkerAction(q: Queued): Action
    requires !q.worker.Exited?
  {
    match q.worker
    case AtCheck => WorkerCheck
    case AtEmptyCheck => WorkerEmptyCheck
    case AtGet => if q.queue == [] then WorkerTimeout else WorkerGet
    case Publishing(_) => WorkerPublish
  }

  function Phase(q: Queued): nat {
    match q.worker
    case AtCheck => 2
    case AtEmptyCheck => 1
    case AtGet => if q.queue == [] then 3 else 0
    case Publishing(_) => 3
    case Exited => 0
  }

  /** A bound on the steps that the worker and the publishes under way can still take. */
  function Work(q: Queued): nat {
    5 * |q.putting| + 4 * |q.queue| + Phase(q)
  }

  predicate IsMove(a: Action) {
    !a.StartPublish? && !a.SetStop? && !a.Join?
  }

  function Moves(actions: seq<Action>, i: nat, j: nat): nat
    requires i <= j <= |actions|
  {
    if i == j then 0 else Moves(actions, i, j - 1) + if IsMove(actions[j - 1]) then 1 else 0
  }

  lemma RemoveShrinks(m: map<nat, Item>, p: nat)
    requires p in m
    ensures |m - {p}| == |m| - 1
  {
    assert (m - {p}).Keys == m.Keys - {p};
  }

  lemma StepUsesWork(q: Queued, a: Action)
    requires q.stop && Enabled(q, a)
    ensures Step(q, a).stop && Work(Step(q, a)) + (if IsMove(a) then 1 else 0) <= Work(q)
  {
    if a.Put? {
      RemoveShrinks(q.putting, a.producer);
    }
  }

  predicate CanGoOn(q: Queued) {
    q.closer.InnerClosed? || Enabled(q, if q.worker.Exited? then Join else WorkerAction(q))
  }

  lemma StoppedCanGoOn(q: Queued)
    requires Inv(q) && q.stop
    ensures CanGoOn(q)
  {}

  lemma {:induction false} RunUsesWork(states: seq<Queued>, actions: seq<Action>, i: nat, j: nat)
    requires Run(states, actions) && i <= j < |states| && states[i].stop
    ensures states[j].stop && Moves(actions, i, j) + Work(states[j]) <= Work(states[i])
    decreases j - i
  {
    if i < j {
      RunUsesWork(states, actions, i, j - 1);
      var q, a := states[j - 1], actions[j - 1];
      assert StepAt(states, actions, j - 1);
      StepUsesWork(q, a);
      assert Moves(actions, i, j) == Moves(actions, i, j - 1) + if IsMove(a) then 1 else 0;
    }
  }

  /** A close comes to its end: after the stop event only so many steps of the worker and of
      publishes under way can happen, in every interleaving; and until the inner publisher is
      closed, the worker or the join can always go on. */
  lemma CloseIsBounded(states: seq<Queued>, actions: seq<Action>, i: nat, j: nat)
    requires Run(states, actions) && i <= j < |states| && states[i].stop
    ensures Moves(actions, i, j) <= Work(states[i])
    ensures CanGoOn(states[j])
  {
    RunUsesWork(states, actions, i, j);
    RunKeepsInv(states, actions, j);
    StoppedCanGoOn(states[j]);
  }

  /** After the worker has left nothing is taken from the queue, and no publish starts. */
  ghost predicate Abandoned(q: Queued, r: Queued) {
    && r.worker.Exited? && r.stop && r.capacity == q.capacity
    && |q.queue| <= |r.queue| && |q.queue| + |q.putting| == |r.queue| + |r.putting|
    && (forall p :: p in r.putting ==> p in q.putting)
  }

  lemma StepAbandons(q: Queued, r: Queued, a: Action)
    requires Abandoned(q, r) && Enabled(r, a)
    ensures Abandoned(q, Step(r, a))
  {
    if a.Put? {
      RemoveShrinks(r.putting, a.producer);
    }
  }

  lemma {:induction false} RunAbandons(states: seq<Queued>, actions: seq<Action>, i: nat, j: nat)
    requires Run(states, actions) && i <= j < |states| && states[i].worker.Exited?
    ensures Abandoned(states[i], states[j])
    decreases j - i
  {
    RunKeepsInv(states, actions, i);
    if i < j {
      RunAbandons(states, actions, i, j - 1);
      assert StepAt(states, actions, j - 1);
      StepAbandons(states[i], states[j - 1], actions[j - 1]);
    }
  }

  /** A publish that waits for room in a full queue when the worker has left waits for ever. */
  lemma FullQueueBlocksForever(states: seq<Queued>, actions: seq<Action>, i: nat, j: nat)
    requires Run(states, actions) && i <= j < |states| && states[i].worker.Exited?
    requires 0 < states[i].capacity == |states[i].queue|
    ensures |states[j].putting| == |states[i].putting|
    ensures forall p :: !Enabled(states[j], Put(p))
  {
    RunAbandons(states, actions, i, j);
    RunKeepsInv(states, actions, j);
  }
}
