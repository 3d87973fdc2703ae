/** What becomes of each polled sample in a run of the subscription pump, said in terms of the
    events of the run: which tick read it, and what its node notified before the next tick. */
module SubscriptionFate {
  import opened NodeId
  import opened SubscriptionLoop

  /** Event `t` is the tick that reads `b` into the buffer. */
  ghost predicate ReadAt(all: set<OpcUaNodeId>, events: seq<Event>, t: nat, b: Buffered) {
    t < |events| && b in AcceptedBy(RunTo(Init(all), events[..t]), events[t])
  }

  /** The first event from `u` on that is not a chunk, or the end of the run. */
  function WindowEnd(events: seq<Event>, u: nat): (v: nat)
    requires u <= |events|
    ensures u <= v <= |events|
    ensures forall i :: u <= i < v ==> events[i].Chunk?
    ensures v < |events| ==> !events[v].Chunk?
    decreases |events| - u
  {
    if u == |events| || !events[u].Chunk? then u else WindowEnd(events, u + 1)
  }

  /** The notifications between event `t` and the next event that is not a chunk. */
  ghost function Window(events: seq<Event>, t: nat): seq<OpcUaSample>
    requires t < |events|
  {
    Arrivals(events[t + 1..WindowEnd(events, t + 1)])
  }

  /** A tick or the exit follows, with only chunks in between. */
  predicate WindowCloses(events: seq<Event>, t: nat)
    requires t < |events|
  {
    WindowEnd(events, t + 1) < |events|
  }

  /** Notification `k` is the first one of the node of `b`. */
  ghost predicate Answers(items: seq<OpcUaSample>, k: nat, b: Buffered) {
    k < |items| && FirstOfNode(items, k) && items[k].nodeId == b.sample.nodeId
  }

  /** The first notification of the node of `b` is newer than `b`. */
  ghost predicate Outdated(items: seq<OpcUaSample>, b: Buffered) {
    exists k: nat :: Answers(items, k, b) && Older(b, items[k])
  }

  /** The first notification of the node of `b` carries `cause` and is not newer than `b`. */
  ghost predicate Stale(items: seq<OpcUaSample>, b: Buffered, cause: OpcUaDataPoint) {
    exists k: nat :: Answers(items, k, b) && !Older(b, items[k]) && items[k].data == cause
  }

  /** Some notification of the window outdates `b`, or the end of the window flushes it. */
  ghost predicate EmittedAfter(events: seq<Event>, t: nat, b: Buffered)
    requires t < |events|
  {
    var items := Window(events, t);
    Outdated(items, b) || (WindowCloses(events, t) && b.sample.nodeId !in NodesOf(items))
  }

  // ---- What a tick reads ----

  /** `s` is the last sample of its node in a reply. */
  ghost predicate LastOfNode(samples: seq<OpcUaSample>, s: OpcUaSample) {
    exists i :: 0 <= i < |samples| && samples[i] == s && forall j :: i < j < |samples| ==> samples[j].nodeId != s.nodeId
  }

  lemma LastOfLonger(samples: seq<OpcUaSample>, s: OpcUaSample)
    requires samples != []
    ensures var front, last := samples[..|samples| - 1], samples[|samples| - 1];
            LastOfNode(samples, s) <==> s == last || (LastOfNode(front, s) && s.nodeId != last.nodeId)
  {
    var k := |samples| - 1;
    var front, last := samples[..k], samples[k];
    if LastOfNode(samples, s) && s != last {
      var i :| 0 <= i < |samples| && samples[i] == s && forall j :: i < j < |samples| ==> samples[j].nodeId != s.nodeId;
      assert front[i] == s;
    }
    if LastOfNode(front, s) && s.nodeId != last.nodeId {
      var i :| 0 <= i < k && front[i] == s && forall j :: i < j < k ==> front[j].nodeId != s.nodeId;
      assert samples[i] == s;
      assert forall j :: i < j < k ==> samples[j] == front[j];
    }
  }

  /** A reply is filed by node, the last sample of a node winning. */
  lemma {:induction false} FiledIff(samples: seq<OpcUaSample>, tick: nat, b: Buffered)
    ensures var m := Extend(map[], samples, tick);
            b.sample.nodeId in m && m[b.sample.nodeId] == b <==> b.readAt == tick && LastOfNode(samples, b.sample)
  {
    if samples != [] {
      FiledIff(samples[..|samples| - 1], tick, b);
      LastOfLonger(samples, b.sample);
    }
  }

  function TickCount(events: seq<Event>): nat {
    if events == [] then 0
    else TickCount(events[..|events| - 1]) + if events[|events| - 1].Tick? then 1 else 0
  }

  lemma {:induction false} TicksAreCounted(all: set<OpcUaNodeId>, events: seq<Event>)
    ensures RunTo(Init(all), events).ticks == TickCount(events)
  {
    if events != [] {
      var k := |events| - 1;
      TicksAreCounted(all, events[..k]);
      TicksGrow(RunTo(Init(all), events[..k]), events[k]);
    }
  }

  /** A sample is buffered exactly when some node was silent since the last reset, the read that the
      tick then issues succeeds, and the sample is the last one of its node in the reply; it is
      labelled with the number of the tick. */
  lemma ReadAtIff(all: set<OpcUaNodeId>, events: seq<Event>, t: nat, b: Buffered)
    requires Possible(Init(all), events) && t < |events|
    ensures ReadAt(all, events, t, b) <==>
            && events[t].Tick? && events[t].read.ReadOk? && LastOfNode(events[t].read.samples, b.sample)
            && b.readAt == TickCount(events[..t]) + 1
            && exists id :: id in all && SilentSinceReset(all, events[..t], id)
  {
    var p := RunTo(Init(all), events[..t]);
    RunPrefix(Init(all), events, t);
    TicksAreCounted(all, events[..t]);
    forall id ensures id in p.quiet <==> id in all && SilentSinceReset(all, events[..t], id) {
      QuietMeansSilent(all, events[..t], id);
    }
    if events[t].Tick? && events[t].read.ReadOk? {
      var samples := events[t].read.samples;
      FiledIff(samples, p.ticks + 1, b);
      ExtendFacts(samples, p.ticks + 1);
      HeldIff(Extend(map[], samples, p.ticks + 1), b);
    }
  }

  // ---- A window as one sequence of notifications ----

  lemma {:induction false} NotifyAllAppend(p: Pump, a: seq<OpcUaSample>, b: seq<OpcUaSample>)
    ensures NotifyAll(NotifyAll(p, a), b) == NotifyAll(p, a + b)
  {
    if b == [] {
      assert a + b == a;
    } else {
      var k := |b| - 1;
      NotifyAllAppend(p, a, b[..k]);
      assert (a + b)[..|a + b| - 1] == a + b[..k];
    }
  }

  lemma {:induction false} RunOfChunks(p: Pump, chunks: seq<Event>)
    requires forall i :: 0 <= i < |chunks| ==> chunks[i].Chunk?
    ensures RunTo(p, chunks) == NotifyAll(p, Arrivals(chunks))
  {
    if chunks != [] {
      var k := |chunks| - 1;
      RunOfChunks(p, chunks[..k]);
      NotifyAllAppend(p, Arrivals(chunks[..k]), chunks[k].items);
    }
  }

  lemma CutAt(events: seq<Event>, u: nat, v: nat)
    requires u <= v <= |events|
    ensures events[..u] + events[u..v] == events[..v]
  {}

  lemma RunOfWindow(p: Pump, events: seq<Event>, t: nat)
    requires t < |events|
    ensures RunTo(p, events[..WindowEnd(events, t + 1)]) == NotifyAll(RunTo(p, events[..t + 1]), Window(events, t))
  {
    var v := WindowEnd(events, t + 1);
    CutAt(events, t + 1, v);
    RunAppend(p, events[..t + 1], events[t + 1..v]);
    RunOfChunks(RunTo(p, events[..t + 1]), events[t + 1..v]);
  }

  lemma RunOneMore(p: Pump, events: seq<Event>, k: nat)
    requires k < |events|
    ensures RunTo(p, events[..k + 1]) == Step(RunTo(p, events[..k]), events[k])
  {
    assert events[..k + 1][..k] == events[..k];
  }

  lemma WholeRun(events: seq<Event>)
    ensures events[..|events|] == events
  {}

  // ---- Logs only grow, and a sample is logged once ----

  lemma StepGrowsLogs(p: Pump, e: Event)
    ensures p.out <= Step(p, e).out && p.dropped <= Step(p, e).dropped
  {
    if e.Chunk? {
      WindowLaw(p, e.items);
    }
  }

  lemma {:induction false} LogsGrow(p: Pump, events: seq<Event>, v: nat)
    requires v <= |events|
    ensures RunTo(p, events[..v]).out <= RunTo(p, events).out
    ensures RunTo(p, events[..v]).dropped <= RunTo(p, events).dropped
    decreases |events|
  {
    if v == |events| {
      assert events[..v] == events;
    } else {
      var k := |events| - 1;
      assert events[..k][..v] == events[..v];
      LogsGrow(p, events[..k], v);
      StepGrowsLogs(RunTo(p, events[..k]), events[k]);
    }
  }

  lemma {:induction false} DropIsCounted(d: seq<Drop>, b: Buffered)
    ensures DroppedPolls(d)[b] > 0 <==> exists x :: x in d && x.buffered == b
  {
    if d != [] {
      var k := |d| - 1;
      DropIsCounted(d[..k], b);
      assert d == d[..k] + [d[k]];
    }
  }

  lemma {:induction false} EmissionIsCounted(out: seq<Emission>, b: Buffered)
    ensures EmittedPolls(out)[b] > 0 <==> Polled(b) in out
  {
    if out != [] {
      var k := |out| - 1;
      EmissionIsCounted(out[..k], b);
      assert out == out[..k] + [out[k]];
    }
  }

  /** A longer log counts at least as often, and as often only if it logs nothing new of `b`. */
  lemma {:induction false} MoreDrops(d: seq<Drop>, longer: seq<Drop>, x: Drop)
    requires d <= longer
    ensures DroppedPolls(d)[x.buffered] <= DroppedPolls(longer)[x.buffered]
    ensures DroppedPolls(d)[x.buffered] == DroppedPolls(longer)[x.buffered] ==> (x in longer <==> x in d)
    decreases longer
  {
    if |d| == |longer| {
      assert d == longer;
    } else {
      var k := |longer| - 1;
      MoreDrops(d, longer[..k], x);
      assert longer == longer[..k] + [longer[k]];
    }
  }

  lemma {:induction false} MoreEmissions(out: seq<Emission>, longer: seq<Emission>, b: Buffered)
    requires out <= longer
    ensures EmittedPolls(out)[b] <= EmittedPolls(longer)[b]
    ensures EmittedPolls(out)[b] == EmittedPolls(longer)[b] ==> (Polled(b) in longer <==> Polled(b) in out)
    decreases longer
  {
    if |out| == |longer| {
      assert out == longer;
    } else {
      var k := |longer| - 1;
      MoreEmissions(out, longer[..k], b);
      assert longer == longer[..k] + [longer[k]];
    }
  }

  /** Once a sample has been emitted or dropped, nothing more happens to it. */
  lemma FateIsFinal(all: set<OpcUaNodeId>, events: seq<Event>, v: nat, x: Drop)
    requires Possible(Init(all), events) && v <= |events|
    requires var p := RunTo(Init(all), events[..v]); EmittedPolls(p.out)[x.buffered] + DroppedPolls(p.dropped)[x.buffered] == 1
    ensures var p, q := RunTo(Init(all), events[..v]), RunTo(Init(all), events);
            (Polled(x.buffered) in q.out <==> Polled(x.buffered) in p.out) && (x in q.dropped <==> x in p.dropped)
  {
    PolledSamplesAreConserved(all, events, x.buffered);
    LogsGrow(Init(all), events, v);
    var p, q := RunTo(Init(all), events[..v]), RunTo(Init(all), events);
    MoreDrops(p.dropped, q.dropped, x);
    MoreEmissions(p.out, q.out, x.buffered);
  }

  // ---- The fate of one polled sample ----

  lemma HeldIff(m: map<OpcUaNodeId, Buffered>, b: Buffered)
    requires forall id :: id in m ==> m[id].sample.nodeId == id
    ensures Held(m)[b] > 0 <==> b.sample.nodeId in m && m[b.sample.nodeId] == b
  {
    if b.sample.nodeId in m && m[b.sample.nodeId] == b {
      assert b in m.Values;
    }
  }

  /** Just after the tick that reads it, a sample is buffered and in no log. */
  lemma ReadIsBuffered(all: set<OpcUaNodeId>, events: seq<Event>, t: nat, b: Buffered)
    requires Possible(Init(all), events) && ReadAt(all, events, t, b)
    ensures var p := RunTo(Init(all), events[..t + 1]);
            && Fresh(p) && b.sample.nodeId in p.polled && p.polled[b.sample.nodeId] == b
            && EmittedPolls(p.out)[b] == 0 && DroppedPolls(p.dropped)[b] == 0
  {
    var p := RunTo(Init(all), events[..t + 1]);
    RunOneMore(Init(all), events, t);
    StepFlushes(RunTo(Init(all), events[..t]), events[t]);
    RunPrefix(Init(all), events, t + 1);
    RunKeepsInvariant(all, events[..t + 1]);
    HeldIff(p.polled, b);
    PolledSamplesAreConserved(all, events[..t + 1], b);
  }

  lemma HeldInWindow(p: Pump, items: seq<OpcUaSample>, b: Buffered)
    requires Fresh(p) && b.sample.nodeId in p.polled && p.polled[b.sample.nodeId] == b
    ensures Held(NotifyAll(p, items).polled)[b] > 0 <==> b.sample.nodeId !in NodesOf(items)
  {
    WindowLaw(p, items);
    HeldIff(NotifyAll(p, items).polled, b);
  }

  lemma FateInWindow(p: Pump, items: seq<OpcUaSample>, b: Buffered, cause: OpcUaDataPoint)
    requires Fresh(p) && b.sample.nodeId in p.polled && p.polled[b.sample.nodeId] == b
    requires EmittedPolls(p.out)[b] == 0 && DroppedPolls(p.dropped)[b] == 0
    ensures var q := NotifyAll(p, items);
            && (Polled(b) in q.out <==> Outdated(items, b))
            && (Drop(b, cause) in q.dropped <==> Stale(items, b, cause))
  {
    WindowLaw(p, items);
    EmissionIsCounted(p.out, b);
    DropIsCounted(p.dropped, b);
    WindowEmitsIff(p.polled, items, |items|, b);
    WindowDropsIff(p.polled, items, |items|, Drop(b, cause));
    forall k: nat | k < |items|
      ensures EmitsAt(p.polled, items, k, b) <==> Answers(items, k, b) && Older(b, items[k])
      ensures DropsAt(p.polled, items, k, Drop(b, cause)) <==> Answers(items, k, b) && !Older(b, items[k]) && items[k].data == cause
    {}
  }

  lemma AcceptedOneMore(p: Pump, events: seq<Event>, k: nat, b: Buffered)
    requires k < |events|
    ensures b in AcceptedBy(RunTo(p, events[..k]), events[k]) ==> Accepted(p, events[..k + 1])[b] >= 1
  {
    var longer := events[..k + 1];
    assert longer[..k] == events[..k] && longer[k] == events[k];
  }

  lemma {:induction false} AcceptedGrows(p: Pump, a: seq<Event>, c: seq<Event>, b: Buffered)
    ensures Accepted(p, a)[b] <= Accepted(p, a + c)[b]
  {
    if c == [] {
      assert a + c == a;
    } else {
      var k := |c| - 1;
      AcceptedGrows(p, a, c[..k], b);
      assert (a + c)[..|a + c| - 1] == a + c[..k];
    }
  }

  /** A sample read by event `t` counts as accepted from then on. */
  lemma AcceptedFrom(all: set<OpcUaNodeId>, events: seq<Event>, t: nat, b: Buffered, v: nat)
    requires ReadAt(all, events, t, b) && t < v <= |events|
    ensures Accepted(Init(all), events[..v])[b] >= 1
  {
    AcceptedOneMore(Init(all), events, t, b);
    AcceptedGrows(Init(all), events[..t + 1], events[t + 1..v], b);
    CutAt(events, t + 1, v);
  }

  /** The event that ends the window flushes what is left, and that settles the fate of `b`. */
  lemma FlushedAtWindowEnd(all: set<OpcUaNodeId>, events: seq<Event>, v: nat, b: Buffered, cause: OpcUaDataPoint)
    requires Possible(Init(all), events) && v < |events| && !events[v].Chunk?
    requires Accepted(Init(all), events[..v])[b] >= 1
    ensures var q, r := RunTo(Init(all), events[..v]), RunTo(Init(all), events);
            && (Polled(b) in r.out <==> Polled(b) in q.out || Held(q.polled)[b] > 0)
            && (Drop(b, cause) in r.dropped <==> Drop(b, cause) in q.dropped)
            && Held(r.polled)[b] == 0
  {
    var q, e := RunTo(Init(all), events[..v]), events[v];
    RunOneMore(Init(all), events, v);
    RunPrefix(Init(all), events, v);
    RunPrefix(Init(all), events, v + 1);
    PolledSamplesAreConserved(all, events[..v], b);
    RunKeepsInvariant(all, events[..v]);
    StepFlushes(q, e);
    DrainEmitsHeld(q.polled, e.order);
    EmittedPollsAppend(q.out, PolledAll(e.order));
    EmissionIsCounted(q.out, b);
    EmissionIsCounted(q.out + PolledAll(e.order), b);
    FateIsFinal(all, events, v + 1, Drop(b, cause));
    PolledSamplesAreConserved(all, events, b);
    LogsGrow(Init(all), events, v + 1);
    var p, r := RunTo(Init(all), events[..v + 1]), RunTo(Init(all), events);
    MoreDrops(p.dropped, r.dropped, Drop(b, cause));
    MoreEmissions(p.out, r.out, b);
  }

  lemma FateAtWindowEnd(all: set<OpcUaNodeId>, events: seq<Event>, t: nat, b: Buffered, cause: OpcUaDataPoint)
    requires Possible(Init(all), events) && ReadAt(all, events, t, b)
    ensures var q, items := RunTo(Init(all), events[..WindowEnd(events, t + 1)]), Window(events, t);
            && (Polled(b) in q.out <==> Outdated(items, b))
            && (Drop(b, cause) in q.dropped <==> Stale(items, b, cause))
            && (Held(q.polled)[b] > 0 <==> b.sample.nodeId !in NodesOf(items))
  {
    ReadIsBuffered(all, events, t, b);
    RunOfWindow(Init(all), events, t);
    HeldInWindow(RunTo(Init(all), events[..t + 1]), Window(events, t), b);
    FateInWindow(RunTo(Init(all), events[..t + 1]), Window(events, t), b, cause);
  }

  /** Whatever happens later, a polled sample is emitted exactly when the first notification of
      its node before the next tick is newer, or there is none and the next tick or the exit
      flushes it; it is dropped exactly when that first notification is not newer; and it is
      still buffered exactly when neither a notification nor a flush has come. */
  lemma FateOfPolledSample(all: set<OpcUaNodeId>, events: seq<Event>, t: nat, b: Buffered, cause: OpcUaDataPoint)
    requires Possible(Init(all), events) && ReadAt(all, events, t, b)
    ensures var p, items := RunTo(Init(all), events), Window(events, t);
            && (Polled(b) in p.out <==> EmittedAfter(events, t, b))
            && (Drop(b, cause) in p.dropped <==> Stale(items, b, cause))
            && (Held(p.polled)[b] > 0 <==> !WindowCloses(events, t) && b.sample.nodeId !in NodesOf(items))
  {
    var v := WindowEnd(events, t + 1);
    FateAtWindowEnd(all, events, t, b, cause);
    if v == |events| {
      WholeRun(events);
    } else {
      AcceptedFrom(all, events, t, b, v);
      FlushedAtWindowEnd(all, events, v, b, cause);
    }
  }

  // ---- What the logs of a run hold ----

  lemma {:induction false} AcceptedSomewhere(all: set<OpcUaNodeId>, events: seq<Event>, b: Buffered)
    requires Accepted(Init(all), events)[b] > 0
    ensures exists t: nat :: ReadAt(all, events, t, b)
  {
    var k := |events| - 1;
    if b in AcceptedBy(RunTo(Init(all), events[..k]), events[k]) {
      assert ReadAt(all, events, k, b);
    } else {
      AcceptedSomewhere(all, events[..k], b);
      var t: nat :| ReadAt(all, events[..k], t, b);
      assert events[..k][..t] == events[..t];
      assert ReadAt(all, events, t, b);
    }
  }

  /** Over every run: a polled sample has been dropped exactly when some tick read it and the
      first notification of its node before the next tick, which is the cause, is not newer. */
  lemma DroppedIff(all: set<OpcUaNodeId>, events: seq<Event>, d: Drop)
    requires Possible(Init(all), events)
    ensures d in RunTo(Init(all), events).dropped <==>
            exists t: nat :: ReadAt(all, events, t, d.buffered) && Stale(Window(events, t), d.buffered, d.cause)
  {
    if d in RunTo(Init(all), events).dropped {
      DropIsCounted(RunTo(Init(all), events).dropped, d.buffered);
      PolledSamplesAreConserved(all, events, d.buffered);
      AcceptedSomewhere(all, events, d.buffered);
    }
    forall t: nat | ReadAt(all, events, t, d.buffered)
      ensures d in RunTo(Init(all), events).dropped <==> Stale(Window(events, t), d.buffered, d.cause)
    {
      FateOfPolledSample(all, events, t, d.buffered, d.cause);
    }
  }

  /** Over every run: a polled sample has been emitted exactly when some tick read it and the
      first notification of its node before the next tick is newer, or there was none and the
      next tick or the exit has come. */
  lemma EmittedIff(all: set<OpcUaNodeId>, events: seq<Event>, b: Buffered)
    requires Possible(Init(all), events)
    ensures Polled(b) in RunTo(Init(all), events).out <==> exists t: nat :: ReadAt(all, events, t, b) && EmittedAfter(events, t, b)
  {
    if Polled(b) in RunTo(Init(all), events).out {
      EmissionIsCounted(RunTo(Init(all), events).out, b);
      PolledSamplesAreConserved(all, events, b);
      AcceptedSomewhere(all, events, b);
    }
    forall t: nat | ReadAt(all, events, t, b)
      ensures Polled(b) in RunTo(Init(all), events).out <==> EmittedAfter(events, t, b)
    {
      FateOfPolledSample(all, events, t, b, b.sample.data);
    }
  }
}
