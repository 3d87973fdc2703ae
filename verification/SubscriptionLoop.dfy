/** The OPC UA subscription pump: notifications are emitted as they arrive, and on each tick of
    a poll timer the nodes that stayed quiet are read directly. A polled sample waits one tick,
    so that a late notification of the same node can be ordered after it or replace it. */
module SubscriptionLoop {
  import opened Wrappers
  import opened NodeId

  newtype U64 = n: int | 0 <= n <= 0xFFFF_FFFF_FFFF_FFFF

  /** The decoded value of a data point is opaque to the pump. */
  type Value = int

  datatype OpcUaDataPoint = OpcUaDataPoint(serverTimestamp: U64, sourceTimestamp: Option<U64>, value: Value)

  datatype OpcUaSample = OpcUaSample(nodeId: OpcUaNodeId, data: OpcUaDataPoint)

  /** A polled sample waiting in the buffer, labelled with the number of the tick that read it. */
  datatype Buffered = Buffered(sample: OpcUaSample, readAt: nat)

  /** One emitted sample, labelled with where it came from. */
  datatype Emission = Notified(sample: OpcUaSample) | Polled(buffered: Buffered)

  /** A polled sample that a same-node notification replaced. */
  datatype Drop = Drop(buffered: Buffered, cause: OpcUaDataPoint)

  datatype ReadOutcome = ReadOk(samples: seq<OpcUaSample>) | ReadFailed

  /** What the pump waits for. */
  datatype Input =
    | TimerTick(read: ReadOutcome)   // with the client alive; `read` answers a batch read, if one is issued
    | ClientGone                     // a tick that finds the client dropped
    | NextChunk(items: seq<OpcUaSample>)
    | EndOfStream

  /** An input as it was handled: draining a hash map emits its samples in some `order`. */
  datatype Event =
    | Tick(read: ReadOutcome, order: seq<Buffered>)
    | Gone(order: seq<Buffered>)
    | Chunk(items: seq<OpcUaSample>)
    | Closed(order: seq<Buffered>)

  datatype Pump = Pump(
    all: set<OpcUaNodeId>,
    quiet: set<OpcUaNodeId>,
    polled: map<OpcUaNodeId, Buffered>,
    ticks: nat,
    out: seq<Emission>,
    dropped: seq<Drop>,
    batches: seq<set<OpcUaNodeId>>,
    stopped: bool)

  function Init(all: set<OpcUaNodeId>): Pump {
    Pump(all, all, map[], 0, [], [], [], false)
  }

  // ---- One step ----

  function PolledAll(order: seq<Buffered>): seq<Emission> {
    seq(|order|, i requires 0 <= i < |order| => Polled(order[i]))
  }

  /** Buffers a read; a later sample of the same node replaces an earlier one. */
  function Extend(polled: map<OpcUaNodeId, Buffered>, samples: seq<OpcUaSample>, tick: nat): map<OpcUaNodeId, Buffered> {
    if samples == [] then polled
    else
      var last := samples[|samples| - 1];
      Extend(polled, samples[..|samples| - 1], tick)[last.nodeId := Buffered(last, tick)]
  }

  predicate Older(b: Buffered, n: OpcUaSample) {
    b.sample.data.serverTimestamp < n.data.serverTimestamp
  }

  /** An older polled sample of the same node goes out just before the notification. */
  function Emits(polled: map<OpcUaNodeId, Buffered>, n: OpcUaSample): seq<Emission> {
    if n.nodeId in polled && Older(polled[n.nodeId], n) then [Polled(polled[n.nodeId]), Notified(n)] else [Notified(n)]
  }

  /** A polled sample of the same node that is not older is stale. */
  function Drops(polled: map<OpcUaNodeId, Buffered>, n: OpcUaSample): seq<Drop> {
    if n.nodeId in polled && !Older(polled[n.nodeId], n) then [Drop(polled[n.nodeId], n.data)] else []
  }

  function Notify(p: Pump, n: OpcUaSample): Pump {
    p.(quiet := p.quiet - {n.nodeId},
       polled := p.polled - {n.nodeId},
       out := p.out + Emits(p.polled, n),
       dropped := p.dropped + Drops(p.polled, n))
  }

  function NotifyAll(p: Pump, items: seq<OpcUaSample>): Pump {
    if items == [] then p
    else Notify(NotifyAll(p, items[..|items| - 1]), items[|items| - 1])
  }

  function Flush(p: Pump, order: seq<Buffered>): Pump {
    p.(polled := map[], out := p.out + PolledAll(order))
  }

  function TickStep(p: Pump, read: ReadOutcome, order: seq<Buffered>): Pump {
    var flushed := Flush(p, order).(ticks := p.ticks + 1);
    if p.quiet == {} then flushed.(quiet := p.all)
    else
      var asked := flushed.(batches := p.batches + [p.quiet]);
      match read
      case ReadFailed => asked
      case ReadOk(samples) => asked.(polled := Extend(map[], samples, p.ticks + 1), quiet := p.all)
  }

  function Step(p: Pump, e: Event): Pump {
    match e
    case Tick(read, order) => TickStep(p, read, order)
    case Chunk(items) => NotifyAll(p, items)
    case Gone(order) => Flush(p, order).(stopped := true)
    case Closed(order) => Flush(p, order).(stopped := true)
  }

  /** `order` lists every buffered sample once. */
  ghost predicate IsDrain(polled: map<OpcUaNodeId, Buffered>, order: seq<Buffered>) {
    && (forall b :: b in order ==> b.sample.nodeId in polled && polled[b.sample.nodeId] == b)
    && (forall id :: id in polled ==> polled[id] in order)
    && (forall i, j :: 0 <= i < j < |order| ==> order[i].sample.nodeId != order[j].sample.nodeId)
  }

  ghost predicate Enabled(p: Pump, e: Event) {
    && !p.stopped
    && match e
       case Tick(read, order) => IsDrain(p.polled, order)
       case Chunk(_) => true
       case Gone(order) => IsDrain(p.polled, order)
       case Closed(order) => IsDrain(p.polled, order)
  }

  // ---- Runs ----

  ghost function RunTo(p: Pump, events: seq<Event>): Pump {
    if events == [] then p
    else Step(RunTo(p, events[..|events| - 1]), events[|events| - 1])
  }

  ghost predicate Possible(p: Pump, events: seq<Event>) {
    forall i :: 0 <= i < |events| ==> Enabled(RunTo(p, events[..i]), events[i])
  }

  function InputOf(e: Event): Input {
    match e
    case Tick(read, _) => TimerTick(read)
    case Gone(_) => ClientGone
    case Chunk(items) => NextChunk(items)
    case Closed(_) => EndOfStream
  }

  ghost predicate Handles(events: seq<Event>, inputs: seq<Input>) {
    && |events| <= |inputs|
    && forall i :: 0 <= i < |events| ==> InputOf(events[i]) == inputs[i]
  }

  /** The client is gone, or there is nothing more to hear. */
  predicate IsExit(e: Event) {
    e.Gone? || e.Closed?
  }

  predicate EndsLoop(i: Input) {
    i.ClientGone? || i.EndOfStream?
  }

  lemma StepStops(p: Pump, e: Event)
    requires Enabled(p, e)
    ensures Step(p, e).stopped <==> IsExit(e)
  {
    if e.Chunk? {
      NotifyAllKeeps(p, e.items);
    }
  }

  /** A run stops exactly at a tick that finds the client gone or at the end of the stream, and
      nothing is handled after it. */
  lemma {:induction false} StopsExactlyAtExit(all: set<OpcUaNodeId>, events: seq<Event>)
    requires Possible(Init(all), events)
    ensures RunTo(Init(all), events).stopped <==> events != [] && IsExit(events[|events| - 1])
    ensures forall i :: 0 <= i < |events| - 1 ==> !IsExit(events[i])
  {
    if events != [] {
      var k := |events| - 1;
      var p := RunTo(Init(all), events[..k]);
      RunPrefix(Init(all), events, k);
      StopsExactlyAtExit(all, events[..k]);
      StepStops(p, events[k]);
      NoExitInFront(events, k);
    }
  }

  lemma NoExitInFront(events: seq<Event>, k: nat)
    requires k < |events| && (k > 0 ==> !IsExit(events[..k][k - 1])) && forall i :: 0 <= i < k - 1 ==> !IsExit(events[..k][i])
    ensures forall i :: 0 <= i < k ==> !IsExit(events[i])
  {
    forall i | 0 <= i < k ensures !IsExit(events[i]) {
      assert events[..k][i] == events[i];
    }
  }

  /** The same, said of the inputs that were handled. */
  lemma InputsEndTheLoop(all: set<OpcUaNodeId>, events: seq<Event>, inputs: seq<Input>)
    requires Possible(Init(all), events) && Handles(events, inputs)
    ensures RunTo(Init(all), events).stopped <==> events != [] && EndsLoop(inputs[|events| - 1])
    ensures forall k :: 0 <= k < |events| - 1 ==> !EndsLoop(inputs[k])
  {
    StopsExactlyAtExit(all, events);
    assert forall k :: 0 <= k < |events| ==> InputOf(events[k]) == inputs[k];
  }

  lemma AppendIsAssociative<T>(a: seq<T>, b: seq<T>, c: seq<T>)
    ensures a + (b + c) == a + b + c
  {}

  // ---- The pump as the program runs it ----

  class SubscriptionPump {
    const all: set<OpcUaNodeId>
    var quiet: set<OpcUaNodeId>
    var polled: map<OpcUaNodeId, Buffered>
    var ticks: nat
    var out: seq<Emission>
    ghost var dropped: seq<Drop>
    var batches: seq<set<OpcUaNodeId>>
    var stopped: bool

    ghost function State(): Pump
      reads this
    {
      Pump(all, quiet, polled, ticks, out, dropped, batches, stopped)
    }

    constructor (nodes: set<OpcUaNodeId>)
      ensures State() == Init(nodes)
    {
      all, quiet, polled, ticks, out, dropped, batches, stopped := nodes, nodes, map[], 0, [], [], [], false;
    }

    /** Empties the buffer and emits its samples, in an order the hash map chooses. */
    method DrainPolled() returns (order: seq<Buffered>)
      requires forall id :: id in polled ==> polled[id].sample.nodeId == id
      modifies this`polled, this`out
      ensures IsDrain(old(polled), order)
      ensures State() == Flush(old(State()), order)
    {
      order := [];
      var rest := polled;
      while rest.Keys != {}
        invariant rest.Keys <= polled.Keys
        invariant forall id :: id in rest ==> rest[id] == polled[id]
        invariant forall b :: b in order ==> b.sample.nodeId in polled && b.sample.nodeId !in rest && polled[b.sample.nodeId] == b
        invariant forall id :: id in polled && id !in rest ==> polled[id] in order
        invariant forall i, j :: 0 <= i < j < |order| ==> order[i].sample.nodeId != order[j].sample.nodeId
        decreases rest.Keys
      {
        var id :| id in rest.Keys;
        assert forall k :: 0 <= k < |order| ==> order[k] in order;
        order := order + [rest[id]];
        rest := rest - {id};
      }
      out := out + PolledAll(order);
      polled := map[];
    }

    method BufferReads(samples: seq<OpcUaSample>)
      modifies this`polled
      ensures polled == Extend(old(polled), samples, ticks)
    {
      for i := 0 to |samples|
        invariant polled == Extend(old(polled), samples[..i], ticks)
      {
        assert samples[..i + 1][..i] == samples[..i];
        polled := polled[samples[i].nodeId := Buffered(samples[i], ticks)];
      }
      assert samples[..|samples|] == samples;
    }

    method OnTick(read: ReadOutcome) returns (ghost e: Event)
      requires !stopped
      requires forall id :: id in polled ==> polled[id].sample.nodeId == id
      modifies this
      ensures e.Tick? && e.read == read && IsDrain(old(polled), e.order)
      ensures State() == Step(old(State()), e)
    {
      var order := DrainPolled();
      e := Tick(read, order);
      ticks := ticks + 1;
      if quiet != {} {
        batches := batches + [quiet];
        if read.ReadFailed? {
          return;
        }
        BufferReads(read.samples);
      }
      quiet := all;
    }

    /** Handles one notification and tells what to emit for it. */
    method OnNotification(n: OpcUaSample) returns (samples: seq<Emission>)
      modifies this`quiet, this`polled, this`dropped
      ensures samples == Emits(old(polled), n)
      ensures quiet == old(quiet) - {n.nodeId} && polled == old(polled) - {n.nodeId}
      ensures dropped == old(dropped) + Drops(old(polled), n)
    {
      quiet := quiet - {n.nodeId};
      samples := [];
      if n.nodeId in polled {
        var b := polled[n.nodeId];
        polled := polled - {n.nodeId};
        if b.sample.data.serverTimestamp < n.data.serverTimestamp {
          samples := samples + [Polled(b)];
        } else {
          dropped := dropped + [Drop(b, n.data)];
        }
      } else {
        assert polled - {n.nodeId} == polled;
        assert dropped + [] == dropped;
      }
      samples := samples + [Notified(n)];
    }

    method OnChunk(items: seq<OpcUaSample>)
      modifies this
      ensures State() == Step(old(State()), Chunk(items))
    {
      var samples: seq<Emission> := [];
      ghost var start := State();
      for i := 0 to |items|
        invariant out == old(out)
        invariant State().(out := out + samples) == NotifyAll(start, items[..i])
      {
        assert items[..i + 1][..i] == items[..i];
        var emitted := OnNotification(items[i]);
        AppendIsAssociative(out, samples, emitted);
        samples := samples + emitted;
      }
      assert items[..|items|] == items;
      out := out + samples;
    }

    method OnExit() returns (order: seq<Buffered>)
      requires !stopped
      requires forall id :: id in polled ==> polled[id].sample.nodeId == id
      modifies this
      ensures IsDrain(old(polled), order)
      ensures State() == Flush(old(State()), order).(stopped := true)
    {
      order := DrainPolled();
      stopped := true;
    }

    /** The loop itself, fed by `inputs`: it returns once an input stops it, or waits for
        more when the inputs are used up. */
    method Run(inputs: seq<Input>) returns (ghost events: seq<Event>)
      requires State() == Init(all)
      modifies this
      ensures Possible(Init(all), events) && Handles(events, inputs)
      ensures State() == RunTo(Init(all), events)
      ensures stopped || |events| == |inputs|
      ensures stopped <==> events != [] && EndsLoop(inputs[|events| - 1])
      ensures forall k :: 0 <= k < |events| - 1 ==> !EndsLoop(inputs[k])
    {
      events := [];
      var i := 0;
      while i < |inputs| && !stopped
        invariant |events| == i <= |inputs|
        invariant Possible(Init(all), events) && Handles(events, inputs)
        invariant State() == RunTo(Init(all), events)
      {
        RunKeepsInvariant(all, events);
        ghost var e;
        match inputs[i] {
          case TimerTick(read) =>
            e := OnTick(read);
          case ClientGone =>
            var order := OnExit();
            e := Gone(order);
          case NextChunk(items) =>
            OnChunk(items);
            e := Chunk(items);
          case EndOfStream =>
            var order := OnExit();
            e := Closed(order);
        }
        RunExtends(Init(all), events, e);
        events := events + [e];
        i := i + 1;
      }
      InputsEndTheLoop(all, events, inputs);
    }
  }

  // ---- What every run keeps ----

  /** Each buffered sample is filed under its node and was read by the latest tick, and a
      stopped pump buffers nothing. */
  ghost predicate Fresh(p: Pump) {
    && (forall id :: id in p.polled ==> p.polled[id].sample.nodeId == id && p.polled[id].readAt == p.ticks)
    && (p.stopped ==> p.polled == map[])
  }

  ghost predicate Files(m: map<OpcUaNodeId, Buffered>, samples: seq<OpcUaSample>, tick: nat) {
    && (forall s :: s in samples ==> s.nodeId in m)
    && (forall id :: id in m ==> m[id].readAt == tick && m[id].sample.nodeId == id && m[id].sample in samples)
  }

  lemma {:induction false} ExtendFacts(samples: seq<OpcUaSample>, tick: nat)
    ensures Files(Extend(map[], samples, tick), samples, tick)
  {
    if samples != [] {
      var front, last := samples[..|samples| - 1], samples[|samples| - 1];
      ExtendFacts(front, tick);
      var m0, m := Extend(map[], front, tick), Extend(map[], samples, tick);
      assert m == m0[last.nodeId := Buffered(last, tick)];
      assert samples == front + [last];
      forall id | id in m
        ensures m[id].readAt == tick && m[id].sample.nodeId == id && m[id].sample in samples
      {
        if id != last.nodeId {
          assert m[id] == m0[id];
        }
      }
    }
  }

  lemma {:induction false} NotifyAllIsFresh(p: Pump, items: seq<OpcUaSample>)
    requires Fresh(p) && !p.stopped
    ensures Fresh(NotifyAll(p, items)) && !NotifyAll(p, items).stopped
  {
    if items != [] {
      NotifyAllIsFresh(p, items[..|items| - 1]);
    }
  }

  lemma StepIsFresh(p: Pump, e: Event)
    requires Fresh(p) && Enabled(p, e)
    ensures Fresh(Step(p, e))
  {
    if e.Chunk? {
      NotifyAllIsFresh(p, e.items);
    } else if e.Tick? && e.read.ReadOk? {
      ExtendFacts(e.read.samples, p.ticks + 1);
    }
  }

  lemma RunExtends(p: Pump, events: seq<Event>, e: Event)
    requires Possible(p, events) && Enabled(RunTo(p, events), e)
    ensures Possible(p, events + [e]) && RunTo(p, events + [e]) == Step(RunTo(p, events), e)
  {
    var longer := events + [e];
    assert longer[..|events|] == events;
    assert forall i :: 0 <= i < |events| ==> longer[..i] == events[..i];
  }

  lemma RunPrefix(p: Pump, events: seq<Event>, k: nat)
    requires Possible(p, events) && k <= |events|
    ensures Possible(p, events[..k])
  {
    assert forall i :: 0 <= i < k ==> events[..k][..i] == events[..i];
  }

  /** No polled sample outlives the tick after the one that read it: whatever is buffered, at
      any point of any run, was read by the latest tick; and nothing is buffered at the exit. */
  lemma {:induction false} RunKeepsInvariant(all: set<OpcUaNodeId>, events: seq<Event>)
    requires Possible(Init(all), events)
    ensures Fresh(RunTo(Init(all), events))
    ensures RunTo(Init(all), events).all == all
  {
    if events != [] {
      var k := |events| - 1;
      RunPrefix(Init(all), events, k);
      RunKeepsInvariant(all, events[..k]);
      StepIsFresh(RunTo(Init(all), events[..k]), events[k]);
      StepKeepsNodes(RunTo(Init(all), events[..k]), events[k]);
    }
  }

  lemma {:induction false} NotifyAllKeeps(p: Pump, items: seq<OpcUaSample>)
    ensures var q := NotifyAll(p, items);
            q.all == p.all && q.ticks == p.ticks && q.batches == p.batches && q.stopped == p.stopped
  {
    if items != [] {
      NotifyAllKeeps(p, items[..|items| - 1]);
    }
  }

  lemma StepKeepsNodes(p: Pump, e: Event)
    ensures Step(p, e).all == p.all
  {
    if e.Chunk? {
      NotifyAllKeeps(p, e.items);
    }
  }

  // ---- Every notification is emitted once, in arrival order ----

  ghost function Notifications(out: seq<Emission>): seq<OpcUaSample> {
    if out == [] then []
    else
      var front, last := Notifications(out[..|out| - 1]), out[|out| - 1];
      if last.Notified? then front + [last.sample] else front
  }

  ghost function Arrivals(events: seq<Event>): seq<OpcUaSample> {
    if events == [] then []
    else Arrivals(events[..|events| - 1]) + ItemsOf(events[|events| - 1])
  }

  lemma {:induction false} NotificationsAppend(a: seq<Emission>, b: seq<Emission>)
    ensures Notifications(a + b) == Notifications(a) + Notifications(b)
  {
    if b == [] {
      assert a + b == a;
    } else {
      var k := |b| - 1;
      assert (a + b)[..|a + b| - 1] == a + b[..k];
      NotificationsAppend(a, b[..k]);
    }
  }

  lemma {:induction false} NoNotificationsInFlush(order: seq<Buffered>)
    ensures Notifications(PolledAll(order)) == []
  {
    if order != [] {
      var k := |order| - 1;
      assert PolledAll(order)[..k] == PolledAll(order[..k]);
      NoNotificationsInFlush(order[..k]);
    }
  }

  lemma EmitsOneNotification(polled: map<OpcUaNodeId, Buffered>, n: OpcUaSample)
    ensures Notifications(Emits(polled, n)) == [n]
  {
    assert [Notified(n)][..0] == [];
    if n.nodeId in polled && Older(polled[n.nodeId], n) {
      var older := [Polled(polled[n.nodeId])];
      assert older[..0] == [];
      assert Emits(polled, n) == older + [Notified(n)];
      NotificationsAppend(older, [Notified(n)]);
    }
  }

  lemma NotifyEmitsOne(p: Pump, q: Pump, n: OpcUaSample, heard: seq<OpcUaSample>)
    requires Notifications(p.out) == heard && q.out == p.out + Emits(p.polled, n)
    ensures Notifications(q.out) == heard + [n]
  {
    NotificationsAppend(p.out, Emits(p.polled, n));
    EmitsOneNotification(p.polled, n);
  }

  lemma AppendLast(heard: seq<OpcUaSample>, items: seq<OpcUaSample>)
    requires items != []
    ensures heard + items[..|items| - 1] + [items[|items| - 1]] == heard + items
  {}

  lemma {:induction false} NotifyAllEmitsAll(p: Pump, q: Pump, items: seq<OpcUaSample>, heard: seq<OpcUaSample>)
    requires Notifications(p.out) == heard && q == NotifyAll(p, items)
    ensures Notifications(q.out) == heard + items
    decreases items
  {
    if items == [] {
      assert heard + items == heard;
    } else {
      var k := |items| - 1;
      var r := NotifyAll(p, items[..k]);
      NotifyAllEmitsAll(p, r, items[..k], heard);
      NotifyEmitsOne(r, q, items[k], heard + items[..k]);
      AppendLast(heard, items);
    }
  }

  lemma FlushIsSilent(p: Pump, order: seq<Buffered>, heard: seq<OpcUaSample>)
    requires Notifications(p.out) == heard
    ensures Notifications(p.out + PolledAll(order)) == heard
  {
    NoNotificationsInFlush(order);
    NotificationsAppend(p.out, PolledAll(order));
    assert heard + [] == heard;
  }

  ghost function ItemsOf(e: Event): seq<OpcUaSample> {
    if e.Chunk? then e.items else []
  }

  lemma StepEmits(p: Pump, e: Event, heard: seq<OpcUaSample>)
    requires Notifications(p.out) == heard
    ensures Notifications(Step(p, e).out) == heard + ItemsOf(e)
  {
    if e.Chunk? {
      NotifyAllEmitsAll(p, Step(p, e), e.items, heard);
    } else {
      FlushIsSilent(p, e.order, heard);
      assert heard + ItemsOf(e) == heard;
    }
  }

  lemma {:induction false} NotificationsKeepOrder(all: set<OpcUaNodeId>, events: seq<Event>)
    ensures Notifications(RunTo(Init(all), events).out) == Arrivals(events)
  {
    if events != [] {
      var k := |events| - 1;
      NotificationsKeepOrder(all, events[..k]);
      StepEmits(RunTo(Init(all), events[..k]), events[k], Arrivals(events[..k]));
    }
  }

  // ---- How chunks are cut does not matter ----

  ghost function Singles(items: seq<OpcUaSample>): seq<Event> {
    if items == [] then [] else Singles(items[..|items| - 1]) + [Chunk([items[|items| - 1]])]
  }

  /** The same events with every chunk cut into single notifications. */
  ghost function Atoms(events: seq<Event>): seq<Event> {
    if events == [] then []
    else
      var front, last := Atoms(events[..|events| - 1]), events[|events| - 1];
      if last.Chunk? then front + Singles(last.items) else front + [last]
  }

  lemma {:induction false} RunAppend(p: Pump, a: seq<Event>, b: seq<Event>)
    ensures RunTo(p, a + b) == RunTo(RunTo(p, a), b)
  {
    if b == [] {
      assert a + b == a;
    } else {
      var k := |b| - 1;
      assert (a + b)[..|a + b| - 1] == a + b[..k];
      RunAppend(p, a, b[..k]);
    }
  }

  lemma {:induction false} RunOfSingles(p: Pump, items: seq<OpcUaSample>)
    ensures RunTo(p, Singles(items)) == NotifyAll(p, items)
  {
    if items != [] {
      var k := |items| - 1;
      RunOfSingles(p, items[..k]);
      var q, one := RunTo(p, Singles(items[..k])), [Chunk([items[k]])];
      RunAppend(p, Singles(items[..k]), one);
      assert one[..0] == [];
      assert RunTo(q, one) == Step(q, one[0]);
      assert [items[k]][..0] == [];
      assert Step(q, one[0]) == Notify(NotifyAll(q, []), items[k]);
    }
  }

  lemma {:induction false} RunOfAtoms(p: Pump, events: seq<Event>)
    ensures RunTo(p, Atoms(events)) == RunTo(p, events)
  {
    if events != [] {
      var k := |events| - 1;
      RunOfAtoms(p, events[..k]);
      var q := RunTo(p, events[..k]);
      if events[k].Chunk? {
        RunAppend(p, Atoms(events[..k]), Singles(events[k].items));
        RunOfSingles(q, events[k].items);
      } else {
        RunAppend(p, Atoms(events[..k]), [events[k]]);
        assert [events[k]][..0] == [];
      }
    }
  }

  /** Cutting the same notifications into different chunks changes nothing, least of all what
      is emitted. */
  lemma ChunkingIsInvisible(p: Pump, a: seq<Event>, b: seq<Event>)
    requires Atoms(a) == Atoms(b)
    ensures RunTo(p, a) == RunTo(p, b)
  {
    RunOfAtoms(p, a);
    RunOfAtoms(p, b);
  }

  // ---- Which nodes a background read asks for ----

  ghost predicate Mentions(e: Event, id: OpcUaNodeId) {
    e.Chunk? && exists s :: s in e.items && s.nodeId == id
  }

  /** A tick starts a new interval unless its read fails. */
  ghost predicate StartsInterval(p: Pump, e: Event) {
    e.Tick? && (p.quiet == {} || e.read.ReadOk?)
  }

  ghost predicate ResetAt(all: set<OpcUaNodeId>, events: seq<Event>, j: nat)
    requires j < |events|
  {
    StartsInterval(RunTo(Init(all), events[..j]), events[j])
  }

  ghost predicate ResetAfter(all: set<OpcUaNodeId>, events: seq<Event>, i: nat) {
    exists j :: i < j < |events| && ResetAt(all, events, j)
  }

  /** Each notification of `id` was followed by the start of a new interval. */
  ghost predicate SilentSinceReset(all: set<OpcUaNodeId>, events: seq<Event>, id: OpcUaNodeId) {
    forall i :: 0 <= i < |events| && Mentions(events[i], id) ==> ResetAfter(all, events, i)
  }

  lemma {:induction false} NotifyAllWakes(p: Pump, items: seq<OpcUaSample>, id: OpcUaNodeId)
    ensures id in NotifyAll(p, items).quiet <==> id in p.quiet && !Mentions(Chunk(items), id)
  {
    if items != [] {
      var k := |items| - 1;
      NotifyAllWakes(p, items[..k], id);
      assert items == items[..k] + [items[k]];
      assert Mentions(Chunk(items), id) <==> Mentions(Chunk(items[..k]), id) || items[k].nodeId == id;
    }
  }

  lemma ResetOfPrefix(all: set<OpcUaNodeId>, events: seq<Event>, i: nat)
    requires i < |events| && !ResetAt(all, events, |events| - 1)
    ensures ResetAfter(all, events, i) <==> ResetAfter(all, events[..|events| - 1], i)
  {
    var k := |events| - 1;
    var front := events[..k];
    forall j: nat | j < k ensures ResetAt(all, front, j) <==> ResetAt(all, events, j) {
      assert front[..j] == events[..j];
    }
  }

  lemma SilenceOfPrefix(all: set<OpcUaNodeId>, events: seq<Event>, id: OpcUaNodeId)
    requires events != [] && !Mentions(events[|events| - 1], id) && !ResetAt(all, events, |events| - 1)
    ensures SilentSinceReset(all, events, id) <==> SilentSinceReset(all, events[..|events| - 1], id)
  {
    var k := |events| - 1;
    var front := events[..k];
    forall i: nat | i < k
      ensures events[i] == front[i]
      ensures ResetAfter(all, events, i) <==> ResetAfter(all, front, i)
    {
      ResetOfPrefix(all, events, i);
    }
  }

  /** The quiet nodes are those with no notification since the last tick that started a new
      interval; a failed read does not start one. */
  lemma {:induction false} QuietMeansSilent(all: set<OpcUaNodeId>, events: seq<Event>, id: OpcUaNodeId)
    requires Possible(Init(all), events)
    ensures id in RunTo(Init(all), events).quiet <==> id in all && SilentSinceReset(all, events, id)
  {
    if events != [] {
      var k := |events| - 1;
      RunPrefix(Init(all), events, k);
      QuietMeansSilent(all, events[..k], id);
      RunKeepsInvariant(all, events[..k]);
      QuietStep(all, events, RunTo(Init(all), events[..k]), id);
    }
  }

  lemma SilentAfterReset(all: set<OpcUaNodeId>, events: seq<Event>, id: OpcUaNodeId)
    requires events != [] && ResetAt(all, events, |events| - 1) && !Mentions(events[|events| - 1], id)
    ensures SilentSinceReset(all, events, id)
  {
    forall i: nat | i < |events| && Mentions(events[i], id)
      ensures ResetAfter(all, events, i)
    {
      assert i < |events| - 1 < |events|;
    }
  }

  lemma NotSilentAfterMention(all: set<OpcUaNodeId>, events: seq<Event>, id: OpcUaNodeId)
    requires events != [] && Mentions(events[|events| - 1], id)
    ensures !SilentSinceReset(all, events, id)
  {
    assert !ResetAfter(all, events, |events| - 1);
  }

  lemma QuietStep(all: set<OpcUaNodeId>, events: seq<Event>, p: Pump, id: OpcUaNodeId)
    requires events != [] && p == RunTo(Init(all), events[..|events| - 1]) && p.all == all
    requires id in p.quiet <==> id in all && SilentSinceReset(all, events[..|events| - 1], id)
    ensures id in Step(p, events[|events| - 1]).quiet <==> id in all && SilentSinceReset(all, events, id)
  {
    var k := |events| - 1;
    StepQuiet(p, events[k], id);
    if Mentions(events[k], id) {
      NotSilentAfterMention(all, events, id);
    } else if ResetAt(all, events, k) {
      SilentAfterReset(all, events, id);
    } else {
      SilenceOfPrefix(all, events, id);
    }
  }

  lemma StepQuiet(p: Pump, e: Event, id: OpcUaNodeId)
    ensures id in Step(p, e).quiet <==>
            if StartsInterval(p, e) then id in p.all else id in p.quiet && !Mentions(e, id)
  {
    if e.Chunk? {
      NotifyAllWakes(p, e.items, id);
    }
  }

  /** A tick issues one background read, for exactly the nodes silent since the last reset, and
      none when there are no such nodes. */
  lemma BatchAsksForSilentNodes(all: set<OpcUaNodeId>, events: seq<Event>, read: ReadOutcome, order: seq<Buffered>)
    requires Possible(Init(all), events)
    ensures var p := RunTo(Init(all), events);
            var silent := set id | id in all && SilentSinceReset(all, events, id);
            Step(p, Tick(read, order)).batches == if silent == {} then p.batches else p.batches + [silent]
  {
    var p := RunTo(Init(all), events);
    forall id ensures id in p.quiet <==> id in all && SilentSinceReset(all, events, id) {
      QuietMeansSilent(all, events, id);
    }
    assert p.quiet == set id | id in all && SilentSinceReset(all, events, id);
  }

  /** Each read is answered only for nodes of the batch it was asked for. */
  ghost predicate ReadsAnswerBatch(all: set<OpcUaNodeId>, events: seq<Event>) {
    forall k, s :: 0 <= k < |events| && events[k].Tick? && events[k].read.ReadOk? && s in events[k].read.samples
                   ==> s.nodeId in RunTo(Init(all), events[..k]).quiet
  }

  lemma {:induction false} NotifyAllKeepsKeys(p: Pump, items: seq<OpcUaSample>)
    requires p.polled.Keys <= p.quiet <= p.all
    ensures var q := NotifyAll(p, items); q.polled.Keys <= q.quiet <= q.all
  {
    if items != [] {
      NotifyAllKeepsKeys(p, items[..|items| - 1]);
    }
  }

  lemma StepKeepsKeys(p: Pump, e: Event)
    requires p.polled.Keys <= p.quiet <= p.all
    requires e.Tick? && e.read.ReadOk? ==> forall s :: s in e.read.samples ==> s.nodeId in p.quiet
    ensures var q := Step(p, e); q.polled.Keys <= q.quiet <= q.all
  {
    if e.Chunk? {
      NotifyAllKeepsKeys(p, e.items);
    } else if e.Tick? && e.read.ReadOk? {
      ExtendFacts(e.read.samples, p.ticks + 1);
    }
  }

  /** Buffered nodes are quiet, and quiet nodes are nodes of the pump. */
  lemma {:induction false} BufferedNodesAreQuiet(all: set<OpcUaNodeId>, events: seq<Event>)
    requires Possible(Init(all), events) && ReadsAnswerBatch(all, events)
    ensures var p := RunTo(Init(all), events); p.polled.Keys <= p.quiet <= p.all == all
  {
    RunKeepsInvariant(all, events);
    if events != [] {
      var k := |events| - 1;
      RunPrefix(Init(all), events, k);
      assert forall j :: 0 <= j < k ==> events[..k][..j] == events[..j];
      BufferedNodesAreQuiet(all, events[..k]);
      StepKeepsKeys(RunTo(Init(all), events[..k]), events[k]);
    }
  }

  // ---- Every polled sample has exactly one fate ----

  ghost function EmittedPolls(out: seq<Emission>): multiset<Buffered> {
    if out == [] then multiset{}
    else
      var front, last := EmittedPolls(out[..|out| - 1]), out[|out| - 1];
      if last.Polled? then front + multiset{last.buffered} else front
  }

  ghost function DroppedPolls(dropped: seq<Drop>): multiset<Buffered> {
    if dropped == [] then multiset{}
    else DroppedPolls(dropped[..|dropped| - 1]) + multiset{dropped[|dropped| - 1].buffered}
  }

  ghost function Held(polled: map<OpcUaNodeId, Buffered>): multiset<Buffered> {
    multiset(polled.Values)
  }

  /** The samples a step reads into the buffer. */
  ghost function AcceptedBy(p: Pump, e: Event): multiset<Buffered> {
    if e.Tick? && p.quiet != {} && e.read.ReadOk? then Held(Extend(map[], e.read.samples, p.ticks + 1)) else multiset{}
  }

  ghost function Accepted(p: Pump, events: seq<Event>): multiset<Buffered> {
    if events == [] then multiset{}
    else
      var k := |events| - 1;
      Accepted(p, events[..k]) + AcceptedBy(RunTo(p, events[..k]), events[k])
  }

  ghost function AllPolls(p: Pump): multiset<Buffered> {
    EmittedPolls(p.out) + DroppedPolls(p.dropped) + Held(p.polled)
  }

  lemma {:induction false} EmittedPollsAppend(a: seq<Emission>, b: seq<Emission>)
    ensures EmittedPolls(a + b) == EmittedPolls(a) + EmittedPolls(b)
  {
    if b == [] {
      assert a + b == a;
    } else {
      var k := |b| - 1;
      assert (a + b)[..|a + b| - 1] == a + b[..k];
      EmittedPollsAppend(a, b[..k]);
    }
  }

  lemma {:induction false} EmittedPollsOfFlush(order: seq<Buffered>)
    ensures EmittedPolls(PolledAll(order)) == multiset(order)
  {
    if order != [] {
      var k := |order| - 1;
      assert PolledAll(order)[..k] == PolledAll(order[..k]);
      EmittedPollsOfFlush(order[..k]);
      assert order == order[..k] + [order[k]];
    }
  }

  lemma {:induction false} DistinctSamplesAsSet(order: seq<Buffered>)
    requires forall i, j :: 0 <= i < j < |order| ==> order[i].sample.nodeId != order[j].sample.nodeId
    ensures multiset(order) == multiset(set b | b in order)
  {
    if order != [] {
      var k := |order| - 1;
      var front, last := order[..k], order[k];
      DistinctSamplesAsSet(front);
      assert order == front + [last];
      assert last !in front;
      assert (set b | b in order) == (set b | b in front) + {last};
    }
  }

  /** A drained buffer emits exactly what it held. */
  lemma DrainEmitsHeld(polled: map<OpcUaNodeId, Buffered>, order: seq<Buffered>)
    requires IsDrain(polled, order)
    ensures EmittedPolls(PolledAll(order)) == Held(polled)
  {
    EmittedPollsOfFlush(order);
    DistinctSamplesAsSet(order);
    assert (set b | b in order) == polled.Values;
  }

  lemma FlushKeepsPolls(p: Pump, q: Pump, order: seq<Buffered>)
    requires IsDrain(p.polled, order)
    requires q.out == p.out + PolledAll(order) && q.dropped == p.dropped
    ensures AllPolls(q) == AllPolls(p) + Held(q.polled)
  {
    DrainEmitsHeld(p.polled, order);
    EmittedPollsAppend(p.out, PolledAll(order));
  }

  ghost function Taken(polled: map<OpcUaNodeId, Buffered>, id: OpcUaNodeId): multiset<Buffered> {
    if id in polled then multiset{polled[id]} else multiset{}
  }

  lemma HeldWithout(polled: map<OpcUaNodeId, Buffered>, id: OpcUaNodeId)
    requires forall k :: k in polled ==> polled[k].sample.nodeId == k
    ensures Held(polled) == Held(polled - {id}) + Taken(polled, id)
  {
    var rest := polled - {id};
    if id in polled {
      forall b ensures b in rest.Values <==> b in polled.Values && b != polled[id] {
        if b in polled.Values && b != polled[id] {
          var k :| k in polled && polled[k] == b;
          assert k in rest && rest[k] == b;
        }
      }
      assert rest.Values == polled.Values - {polled[id]};
    } else {
      assert rest == polled;
    }
  }

  lemma EmitsOrDrops(polled: map<OpcUaNodeId, Buffered>, n: OpcUaSample)
    ensures EmittedPolls(Emits(polled, n)) + DroppedPolls(Drops(polled, n)) == Taken(polled, n.nodeId)
  {
    assert [Notified(n)][..0] == [];
    if n.nodeId in polled && Older(polled[n.nodeId], n) {
      var older := [Polled(polled[n.nodeId])];
      assert older[..0] == [];
      assert Emits(polled, n) == older + [Notified(n)];
      EmittedPollsAppend(older, [Notified(n)]);
    } else {
      assert Drops(polled, n) == [] || Drops(polled, n)[..0] == [];
    }
  }

  lemma DroppedPollsAppend(a: seq<Drop>, b: seq<Drop>)
    requires |b| <= 1
    ensures DroppedPolls(a + b) == DroppedPolls(a) + DroppedPolls(b)
  {
    if b == [] {
      assert a + b == a;
    } else {
      assert (a + b)[..|a|] == a;
      assert b[..0] == [];
    }
  }

  lemma NotifyKeepsPolls(p: Pump, n: OpcUaSample)
    requires Fresh(p)
    ensures AllPolls(Notify(p, n)) == AllPolls(p)
  {
    HeldWithout(p.polled, n.nodeId);
    EmittedPollsAppend(p.out, Emits(p.polled, n));
    DroppedPollsAppend(p.dropped, Drops(p.polled, n));
    EmitsOrDrops(p.polled, n);
  }

  lemma {:induction false} NotifyAllKeepsPolls(p: Pump, items: seq<OpcUaSample>)
    requires Fresh(p) && !p.stopped
    ensures AllPolls(NotifyAll(p, items)) == AllPolls(p)
  {
    if items != [] {
      var k := |items| - 1;
      NotifyAllKeepsPolls(p, items[..k]);
      NotifyAllIsFresh(p, items[..k]);
      NotifyKeepsPolls(NotifyAll(p, items[..k]), items[k]);
    }
  }

  lemma StepFlushes(p: Pump, e: Event)
    requires !e.Chunk?
    ensures var q := Step(p, e);
            q.out == p.out + PolledAll(e.order) && q.dropped == p.dropped && Held(q.polled) == AcceptedBy(p, e)
  {}

  lemma StepKeepsPolls(p: Pump, e: Event)
    requires Fresh(p) && Enabled(p, e)
    ensures AllPolls(Step(p, e)) == AllPolls(p) + AcceptedBy(p, e)
  {
    if e.Chunk? {
      NotifyAllKeepsPolls(p, e.items);
    } else {
      StepFlushes(p, e);
      FlushKeepsPolls(p, Step(p, e), e.order);
    }
  }

  lemma AcceptedByTick(p: Pump, e: Event, b: Buffered)
    ensures AcceptedBy(p, e)[b] <= 1
    ensures b in AcceptedBy(p, e) ==> b.readAt == p.ticks + 1 && e.Tick?
  {
    if e.Tick? && p.quiet != {} && e.read.ReadOk? {
      ExtendFacts(e.read.samples, p.ticks + 1);
    }
  }

  lemma TicksGrow(p: Pump, e: Event)
    ensures Step(p, e).ticks == p.ticks + if e.Tick? then 1 else 0
  {
    if e.Chunk? {
      NotifyAllKeeps(p, e.items);
    }
  }

  /** Labels are never reused: a sample accepted in a run carries a tick number of that run. */
  lemma {:induction false} AcceptedOnce(p: Pump, events: seq<Event>, b: Buffered)
    ensures Accepted(p, events)[b] <= 1
    ensures b in Accepted(p, events) ==> b.readAt <= RunTo(p, events).ticks
  {
    if events != [] {
      var k := |events| - 1;
      AcceptedOnce(p, events[..k], b);
      AcceptedByTick(RunTo(p, events[..k]), events[k], b);
      TicksGrow(RunTo(p, events[..k]), events[k]);
    }
  }

  /** Over any run, each polled sample that was buffered has been emitted once, or dropped once,
      or is still buffered, and never more than one of the three; after the exit none is buffered. */
  lemma {:induction false} PolledSamplesAreConserved(all: set<OpcUaNodeId>, events: seq<Event>, b: Buffered)
    requires Possible(Init(all), events)
    ensures var p := RunTo(Init(all), events);
            && EmittedPolls(p.out)[b] + DroppedPolls(p.dropped)[b] + Held(p.polled)[b] == Accepted(Init(all), events)[b] <= 1
            && (p.stopped ==> Held(p.polled)[b] == 0)
  {
    AcceptedOnce(Init(all), events, b);
    RunKeepsInvariant(all, events);
    AcceptedEqualsAll(all, events);
  }

  lemma {:induction false} AcceptedEqualsAll(all: set<OpcUaNodeId>, events: seq<Event>)
    requires Possible(Init(all), events)
    ensures AllPolls(RunTo(Init(all), events)) == Accepted(Init(all), events)
  {
    if events != [] {
      var k := |events| - 1;
      RunPrefix(Init(all), events, k);
      AcceptedEqualsAll(all, events[..k]);
      RunKeepsInvariant(all, events[..k]);
      StepKeepsPolls(RunTo(Init(all), events[..k]), events[k]);
    }
  }

  // ---- What happens between two ticks ----

  /** The first notification of its node in `items`. */
  ghost predicate FirstOfNode(items: seq<OpcUaSample>, k: nat)
    requires k < |items|
  {
    forall j :: 0 <= j < k ==> items[j].nodeId != items[k].nodeId
  }

  /** Notification `k` finds a polled sample of its node in the buffer `m`. */
  ghost predicate Meets(m: map<OpcUaNodeId, Buffered>, items: seq<OpcUaSample>, k: nat)
    requires k < |items|
  {
    FirstOfNode(items, k) && items[k].nodeId in m
  }

  /** What the first `n` notifications emit when the buffer starts as `m`. */
  ghost function WindowOut(m: map<OpcUaNodeId, Buffered>, items: seq<OpcUaSample>, n: nat): seq<Emission>
    requires n <= |items|
  {
    if n == 0 then []
    else
      var k := n - 1;
      WindowOut(m, items, k)
      + (if Meets(m, items, k) && Older(m[items[k].nodeId], items[k]) then [Polled(m[items[k].nodeId])] else [])
      + [Notified(items[k])]
  }

  ghost function WindowDrops(m: map<OpcUaNodeId, Buffered>, items: seq<OpcUaSample>, n: nat): seq<Drop>
    requires n <= |items|
  {
    if n == 0 then []
    else
      var k := n - 1;
      WindowDrops(m, items, k)
      + if Meets(m, items, k) && !Older(m[items[k].nodeId], items[k]) then [Drop(m[items[k].nodeId], items[k].data)] else []
  }

  lemma {:induction false} WindowOfPrefix(m: map<OpcUaNodeId, Buffered>, items: seq<OpcUaSample>, n: nat, k: nat)
    requires k <= n <= |items|
    ensures WindowOut(m, items[..n], k) == WindowOut(m, items, k)
    ensures WindowDrops(m, items[..n], k) == WindowDrops(m, items, k)
  {
    if k > 0 {
      WindowOfPrefix(m, items, n, k - 1);
    }
  }

  ghost function NodesOf(items: seq<OpcUaSample>): set<OpcUaNodeId> {
    set n | n in items :: n.nodeId
  }

  /** Between two ticks, only the first notification of a node can meet its polled sample: it is
      emitted just before that notification when older, and dropped otherwise. Samples of nodes
      that do not notify stay buffered. */
  lemma {:induction false} WindowLaw(p: Pump, items: seq<OpcUaSample>)
    ensures NotifyAll(p, items) == p.(
              quiet := p.quiet - NodesOf(items),
              polled := p.polled - NodesOf(items),
              out := p.out + WindowOut(p.polled, items, |items|),
              dropped := p.dropped + WindowDrops(p.polled, items, |items|))
  {
    if items == [] {
      assert p.polled - NodesOf(items) == p.polled;
    } else {
      var k := |items| - 1;
      WindowLaw(p, items[..k]);
      WindowOfPrefix(p.polled, items, k, k);
      WindowStep(p.polled, items);
      var q, n := NotifyAll(p, items[..k]), items[k];
      WithoutTwo(p.polled, p.quiet, NodesOf(items[..k]), n.nodeId);
      AppendIsAssociative(p.out, WindowOut(p.polled, items, k), Emits(q.polled, n));
      AppendIsAssociative(p.dropped, WindowDrops(p.polled, items, k), Drops(q.polled, n));
    }
  }

  lemma WithoutTwo(m: map<OpcUaNodeId, Buffered>, quiet: set<OpcUaNodeId>, ids: set<OpcUaNodeId>, id: OpcUaNodeId)
    ensures m - ids - {id} == m - (ids + {id}) && quiet - ids - {id} == quiet - (ids + {id})
  {}

  lemma WindowStep(m: map<OpcUaNodeId, Buffered>, items: seq<OpcUaSample>)
    requires items != []
    ensures var k := |items| - 1;
            var left := m - NodesOf(items[..k]);
            && NodesOf(items) == NodesOf(items[..k]) + {items[k].nodeId}
            && WindowOut(m, items, |items|) == WindowOut(m, items, k) + Emits(left, items[k])
            && WindowDrops(m, items, |items|) == WindowDrops(m, items, k) + Drops(left, items[k])
  {
    var k := |items| - 1;
    var front, n := items[..k], items[k];
    assert items == front + [n];
    assert NodesOf(items) == NodesOf(front) + {n.nodeId};
    assert n.nodeId in NodesOf(front) <==> !FirstOfNode(items, k) by {
      assert forall j :: 0 <= j < k ==> front[j] == items[j] && front[j] in front;
    }
    assert Meets(m, items, k) <==> n.nodeId in m - NodesOf(front);
  }

  /** Membership in the drops of a window. */
  lemma {:induction false} WindowDropsIff(m: map<OpcUaNodeId, Buffered>, items: seq<OpcUaSample>, n: nat, d: Drop)
    requires n <= |items|
    ensures d in WindowDrops(m, items, n) <==> exists k: nat :: k < n && DropsAt(m, items, k, d)
  {
    if n > 0 {
      WindowDropsIff(m, items, n - 1, d);
      assert d in WindowDrops(m, items, n) <==> d in WindowDrops(m, items, n - 1) || DropsAt(m, items, n - 1, d);
    }
  }

  ghost predicate DropsAt(m: map<OpcUaNodeId, Buffered>, items: seq<OpcUaSample>, k: nat, d: Drop)
    requires k < |items|
  {
    Meets(m, items, k) && m[items[k].nodeId] == d.buffered && items[k].data == d.cause && !Older(d.buffered, items[k])
  }

  ghost predicate EmitsAt(m: map<OpcUaNodeId, Buffered>, items: seq<OpcUaSample>, k: nat, b: Buffered)
    requires k < |items|
  {
    Meets(m, items, k) && m[items[k].nodeId] == b && Older(b, items[k])
  }

  /** Membership in the emissions of a window. */
  lemma {:induction false} WindowEmitsIff(m: map<OpcUaNodeId, Buffered>, items: seq<OpcUaSample>, n: nat, b: Buffered)
    requires n <= |items|
    ensures Polled(b) in WindowOut(m, items, n) <==> exists k: nat :: k < n && EmitsAt(m, items, k, b)
  {
    if n > 0 {
      WindowEmitsIff(m, items, n - 1, b);
      assert Polled(b) in WindowOut(m, items, n) <==> Polled(b) in WindowOut(m, items, n - 1) || EmitsAt(m, items, n - 1, b);
    }
  }
}
