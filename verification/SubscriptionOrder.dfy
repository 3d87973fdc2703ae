/** When the samples that the subscription pump emits for one node are in the order of their
    timestamps: what the buffering of polled samples preserves, and the one way it breaks. */
module SubscriptionOrder {
  import opened Wrappers
  import opened NodeId
  import opened SubscriptionLoop
  import opened SubscriptionFate

  // ---- Timestamps ----

  function SampleOf(e: Emission): OpcUaSample {
    match e
    case Notified(sample) => sample
    case Polled(buffered) => buffered.sample
  }

  predicate Before(a: OpcUaSample, b: OpcUaSample) {
    a.data.serverTimestamp < b.data.serverTimestamp
  }

  /** Samples of one node carry increasing timestamps. */
  ghost predicate InOrder(items: seq<OpcUaSample>) {
    forall i, j :: 0 <= i < j < |items| && items[i].nodeId == items[j].nodeId ==> Before(items[i], items[j])
  }

  ghost predicate EmittedInOrder(out: seq<Emission>) {
    forall i, j :: 0 <= i < j < |out| && SampleOf(out[i]).nodeId == SampleOf(out[j]).nodeId ==>
      Before(SampleOf(out[i]), SampleOf(out[j]))
  }

  /** `b`, read by event `t`, is newer than what its node notified before and than what was read
      of it before. */
  ghost predicate NewerThanPast(all: set<OpcUaNodeId>, events: seq<Event>, t: nat, b: Buffered)
    requires t < |events|
  {
    && (forall n :: n in Arrivals(events[..t]) && n.nodeId == b.sample.nodeId ==> Before(n, b.sample))
    && (forall u: nat, c :: u < t && ReadAt(all, events, u, c) && c.sample.nodeId == b.sample.nodeId ==> Before(c.sample, b.sample))
  }

  /** The server behaves: notifications of a node carry increasing timestamps, and a read returns
      something newer than what was notified or read before it. Nothing is said of notifications
      that arrive after a read. */
  ghost predicate Timely(all: set<OpcUaNodeId>, events: seq<Event>) {
    && InOrder(Arrivals(events))
    && forall t: nat, b :: ReadAt(all, events, t, b) ==> NewerThanPast(all, events, t, b)
  }

  // ---- A polled sample is emitted as the newest of its node ----

  ghost predicate Newest(out: seq<Emission>, s: OpcUaSample) {
    forall i :: 0 <= i < |out| && SampleOf(out[i]).nodeId == s.nodeId ==> Before(SampleOf(out[i]), s)
  }

  ghost predicate PollsInOrder(out: seq<Emission>) {
    forall j :: 0 <= j < |out| && out[j].Polled? ==> Newest(out[..j], SampleOf(out[j]))
  }

  /** Whatever waits in the buffer is newer than all that was emitted of its node. */
  ghost predicate BufferIsNewest(p: Pump) {
    forall id :: id in p.polled ==> p.polled[id].sample.nodeId == id && Newest(p.out, p.polled[id].sample)
  }

  lemma NewestOfLonger(out: seq<Emission>, e: Emission, s: OpcUaSample)
    requires Newest(out, s) && (SampleOf(e).nodeId == s.nodeId ==> Before(SampleOf(e), s))
    ensures Newest(out + [e], s)
  {}

  lemma PollsOfLonger(out: seq<Emission>, e: Emission)
    requires PollsInOrder(out) && (e.Polled? ==> Newest(out, SampleOf(e)))
    ensures PollsInOrder(out + [e])
  {
    var longer := out + [e];
    forall j | 0 <= j < |longer| && longer[j].Polled? ensures Newest(longer[..j], SampleOf(longer[j])) {
      assert longer[..j] == out[..j];
      assert out[..|out|] == out;
    }
  }

  lemma NotifyKeepsOrder(p: Pump, n: OpcUaSample)
    requires PollsInOrder(p.out) && BufferIsNewest(p)
    ensures PollsInOrder(Notify(p, n).out) && BufferIsNewest(Notify(p, n))
  {
    var q := Notify(p, n);
    if n.nodeId in p.polled && Older(p.polled[n.nodeId], n) {
      var first := p.out + [Polled(p.polled[n.nodeId])];
      PollsOfLonger(p.out, Polled(p.polled[n.nodeId]));
      PollsOfLonger(first, Notified(n));
      assert q.out == first + [Notified(n)];
      forall id | id in q.polled ensures Newest(q.out, q.polled[id].sample) {
        NewestOfLonger(p.out, Polled(p.polled[n.nodeId]), q.polled[id].sample);
        NewestOfLonger(first, Notified(n), q.polled[id].sample);
      }
    } else {
      PollsOfLonger(p.out, Notified(n));
      forall id | id in q.polled ensures Newest(q.out, q.polled[id].sample) {
        NewestOfLonger(p.out, Notified(n), q.polled[id].sample);
      }
    }
  }

  lemma {:induction false} NotifyAllKeepsOrder(p: Pump, items: seq<OpcUaSample>)
    requires PollsInOrder(p.out) && BufferIsNewest(p)
    ensures PollsInOrder(NotifyAll(p, items).out) && BufferIsNewest(NotifyAll(p, items))
  {
    if items != [] {
      var k := |items| - 1;
      NotifyAllKeepsOrder(p, items[..k]);
      NotifyKeepsOrder(NotifyAll(p, items[..k]), items[k]);
    }
  }

  lemma FlushOfLonger(out: seq<Emission>, order: seq<Buffered>)
    requires order != []
    ensures out + PolledAll(order) == out + PolledAll(order[..|order| - 1]) + [Polled(order[|order| - 1])]
  {}

  lemma {:induction false} FlushLeavesOthers(out: seq<Emission>, order: seq<Buffered>, s: OpcUaSample)
    requires Newest(out, s) && forall b :: b in order ==> b.sample.nodeId != s.nodeId
    ensures Newest(out + PolledAll(order), s)
  {
    if order == [] {
      assert out + PolledAll(order) == out;
    } else {
      var k := |order| - 1;
      FlushLeavesOthers(out, order[..k], s);
      FlushOfLonger(out, order);
      NewestOfLonger(out + PolledAll(order[..k]), Polled(order[k]), s);
    }
  }

  lemma {:induction false} FlushKeepsOrder(out: seq<Emission>, order: seq<Buffered>)
    requires PollsInOrder(out) && forall b :: b in order ==> Newest(out, b.sample)
    requires forall i, j :: 0 <= i < j < |order| ==> order[i].sample.nodeId != order[j].sample.nodeId
    ensures PollsInOrder(out + PolledAll(order))
  {
    if order == [] {
      assert out + PolledAll(order) == out;
    } else {
      var k := |order| - 1;
      FlushKeepsOrder(out, order[..k]);
      FlushLeavesOthers(out, order[..k], order[k].sample);
      FlushOfLonger(out, order);
      PollsOfLonger(out + PolledAll(order[..k]), Polled(order[k]));
    }
  }

  // ---- What a tick reads is newer than all that was emitted ----

  lemma {:induction false} NotificationIsLogged(out: seq<Emission>, n: OpcUaSample)
    ensures n in Notifications(out) <==> Notified(n) in out
  {
    if out != [] {
      var k := |out| - 1;
      NotificationIsLogged(out[..k], n);
      assert out == out[..k] + [out[k]];
    }
  }

  /** A polled sample that a flush emits, or that was emitted before, was read before. */
  lemma EmittedWasRead(all: set<OpcUaNodeId>, events: seq<Event>, order: seq<Buffered>, c: Buffered)
    requires Possible(Init(all), events)
    requires var p := RunTo(Init(all), events); IsDrain(p.polled, order) && Polled(c) in p.out + PolledAll(order)
    ensures exists u: nat :: u < |events| && ReadAt(all, events, u, c)
  {
    var p := RunTo(Init(all), events);
    EmissionIsCounted(p.out + PolledAll(order), c);
    EmittedPollsAppend(p.out, PolledAll(order));
    DrainEmitsHeld(p.polled, order);
    PolledSamplesAreConserved(all, events, c);
    AcceptedSomewhere(all, events, c);
  }

  lemma ReadOfPrefix(all: set<OpcUaNodeId>, events: seq<Event>, k: nat, u: nat, c: Buffered)
    requires k <= |events| && u < k
    ensures ReadAt(all, events[..k], u, c) <==> ReadAt(all, events, u, c)
  {
    assert events[..k][..u] == events[..u];
  }

  lemma ReadIsNewest(all: set<OpcUaNodeId>, events: seq<Event>, t: nat, b: Buffered)
    requires Possible(Init(all), events) && Timely(all, events) && ReadAt(all, events, t, b)
    ensures Newest(RunTo(Init(all), events[..t]).out + PolledAll(events[t].order), b.sample)
  {
    var p, order := RunTo(Init(all), events[..t]), events[t].order;
    var out := p.out + PolledAll(order);
    RunPrefix(Init(all), events, t);
    assert Enabled(p, events[t]);
    assert NewerThanPast(all, events, t, b);
    NotificationsKeepOrder(all, events[..t]);
    FlushIsSilent(p, order, Arrivals(events[..t]));
    forall i | 0 <= i < |out| && SampleOf(out[i]).nodeId == b.sample.nodeId ensures Before(SampleOf(out[i]), b.sample) {
      if out[i].Notified? {
        NotificationIsLogged(out, out[i].sample);
      } else {
        EmittedWasRead(all, events[..t], order, out[i].buffered);
        var u: nat :| u < t && ReadAt(all, events[..t], u, out[i].buffered);
        ReadOfPrefix(all, events, t, u, out[i].buffered);
      }
    }
  }

  lemma BufferIsAccepted(p: Pump, e: Event, id: OpcUaNodeId)
    requires !e.Chunk? && id in Step(p, e).polled
    ensures Step(p, e).polled[id] in AcceptedBy(p, e)
  {
    StepFlushes(p, e);
    assert Step(p, e).polled[id] in Step(p, e).polled.Values;
  }

  lemma ReadsBecomeNewest(all: set<OpcUaNodeId>, events: seq<Event>, t: nat)
    requires Possible(Init(all), events) && Timely(all, events) && t < |events| && !events[t].Chunk?
    ensures BufferIsNewest(RunTo(Init(all), events[..t + 1]))
  {
    var p, q := RunTo(Init(all), events[..t]), RunTo(Init(all), events[..t + 1]);
    RunOneMore(Init(all), events, t);
    RunPrefix(Init(all), events, t + 1);
    RunKeepsInvariant(all, events[..t + 1]);
    StepFlushes(p, events[t]);
    forall id | id in q.polled ensures Newest(q.out, q.polled[id].sample) {
      BufferIsAccepted(p, events[t], id);
      ReadIsNewest(all, events, t, q.polled[id]);
    }
  }

  lemma {:induction false} RunKeepsPollsInOrder(all: set<OpcUaNodeId>, events: seq<Event>, t: nat)
    requires Possible(Init(all), events) && Timely(all, events) && t <= |events|
    ensures var p := RunTo(Init(all), events[..t]); PollsInOrder(p.out) && BufferIsNewest(p)
  {
    if t > 0 {
      var k, e := t - 1, events[t - 1];
      var p := RunTo(Init(all), events[..k]);
      RunKeepsPollsInOrder(all, events, k);
      RunOneMore(Init(all), events, k);
      assert Enabled(p, e);
      if e.Chunk? {
        NotifyAllKeepsOrder(p, e.items);
      } else {
        StepFlushes(p, e);
        FlushKeepsOrder(p.out, e.order);
        ReadsBecomeNewest(all, events, k);
      }
    }
  }

  // ---- The one way the order breaks ----

  /** `b`, read by event `t`, is flushed because its node stays silent until the next tick or the
      exit; and later its node notifies something that is not newer. */
  ghost predicate Overtaken(events: seq<Event>, t: nat, b: Buffered)
    requires t < |events|
  {
    && WindowCloses(events, t) && b.sample.nodeId !in NodesOf(Window(events, t))
    && exists n :: n in Arrivals(events[t + 1..]) && n.nodeId == b.sample.nodeId && !Older(b, n)
  }

  lemma {:induction false} ArrivalsAppend(a: seq<Event>, b: seq<Event>)
    ensures Arrivals(a + b) == Arrivals(a) + Arrivals(b)
  {
    if b == [] {
      assert a + b == a;
    } else {
      var k := |b| - 1;
      assert (a + b)[..|a + b| - 1] == a + b[..k];
      ArrivalsAppend(a, b[..k]);
      AppendIsAssociative(Arrivals(a), Arrivals(b[..k]), ItemsOf(b[k]));
    }
  }

  lemma SplitAt(events: seq<Event>, v: nat)
    requires v <= |events|
    ensures events[..v] + events[v..] == events
  {}

  lemma SameRest<T>(a: seq<T>, b: seq<T>, c: seq<T>)
    requires a + b == a + c
    ensures b == c
  {
    assert b == (a + b)[|a|..] == (a + c)[|a|..] == c;
  }

  /** What the log of a run holds beyond event `v` are the notifications that arrive from then on. */
  lemma LaterNotifications(all: set<OpcUaNodeId>, events: seq<Event>, v: nat)
    requires v <= |events|
    ensures var p, r := RunTo(Init(all), events[..v]), RunTo(Init(all), events);
            p.out <= r.out && Notifications(r.out[|p.out|..]) == Arrivals(events[v..])
  {
    var p, r := RunTo(Init(all), events[..v]), RunTo(Init(all), events);
    LogsGrow(Init(all), events, v);
    NotificationsKeepOrder(all, events[..v]);
    NotificationsKeepOrder(all, events);
    NotificationsAppend(p.out, r.out[|p.out|..]);
    assert p.out + r.out[|p.out|..] == r.out;
    SplitAt(events, v);
    ArrivalsAppend(events[..v], events[v..]);
    SameRest(Arrivals(events[..v]), Notifications(r.out[|p.out|..]), Arrivals(events[v..]));
  }

  lemma {:induction false} NotifiedInOrder(out: seq<Emission>, i: nat, j: nat)
    requires InOrder(Notifications(out)) && i < j < |out| && out[i].Notified? && out[j].Notified?
    requires out[i].sample.nodeId == out[j].sample.nodeId
    ensures Before(out[i].sample, out[j].sample)
  {
    var k := |out| - 1;
    var front := out[..k];
    if j < k {
      PrefixInOrder(Notifications(front), Notifications(out));
      NotifiedInOrder(front, i, j);
    } else {
      NotificationIsLogged(front, out[i].sample);
      assert front[i] == out[i];
      var m :| 0 <= m < |Notifications(front)| && Notifications(front)[m] == out[i].sample;
      assert Notifications(out) == Notifications(front) + [out[j].sample];
      assert Notifications(out)[m] == out[i].sample && Notifications(out)[|Notifications(front)|] == out[j].sample;
    }
  }

  lemma PrefixInOrder(a: seq<OpcUaSample>, b: seq<OpcUaSample>)
    requires a <= b && InOrder(b)
    ensures InOrder(a)
  {}

  lemma ArrivalsCut(events: seq<Event>, u: nat, v: nat)
    requires u <= v <= |events|
    ensures Arrivals(events[u..]) == Arrivals(events[u..v]) + Arrivals(events[v..])
  {
    assert events[u..v] + events[v..] == events[u..];
    ArrivalsAppend(events[u..v], events[v..]);
  }

  lemma ArrivalsSkip(events: seq<Event>, v: nat)
    requires v < |events| && !events[v].Chunk?
    ensures Arrivals(events[v..]) == Arrivals(events[v + 1..])
  {
    var one := [events[v]];
    assert one + events[v + 1..] == events[v..];
    ArrivalsAppend(one, events[v + 1..]);
    assert one[..0] == [];
    assert [] + Arrivals(events[v + 1..]) == Arrivals(events[v + 1..]);
  }

  /** What arrives after event `t` are the notifications of its window and those after it. */
  lemma ArrivalsOfWindow(events: seq<Event>, t: nat, v: nat)
    requires t < |events| && v == WindowEnd(events, t + 1)
    ensures Arrivals(events[t + 1..]) == Window(events, t) + Arrivals(events[v..])
    ensures v < |events| ==> Arrivals(events[v..]) == Arrivals(events[v + 1..])
  {
    ArrivalsCut(events, t + 1, v);
    if v < |events| {
      ArrivalsSkip(events, v);
    }
  }

  lemma FlushedAt(all: set<OpcUaNodeId>, events: seq<Event>, v: nat, b: Buffered)
    requires Possible(Init(all), events) && v < |events| && !events[v].Chunk?
    requires Accepted(Init(all), events[..v])[b] >= 1 && Held(RunTo(Init(all), events[..v]).polled)[b] > 0
    ensures Polled(b) in RunTo(Init(all), events[..v + 1]).out
  {
    var upTo := events[..v + 1];
    RunPrefix(Init(all), events, v + 1);
    assert upTo[..v] == events[..v];
    FlushedAtWindowEnd(all, upTo, v, b, b.sample.data);
  }

  lemma FlushedByWindowEnd(all: set<OpcUaNodeId>, events: seq<Event>, t: nat, b: Buffered, v: nat)
    requires Possible(Init(all), events) && ReadAt(all, events, t, b) && v == WindowEnd(events, t + 1) < |events|
    requires b.sample.nodeId !in NodesOf(Window(events, t))
    ensures Polled(b) in RunTo(Init(all), events[..v + 1]).out
  {
    FateAtWindowEnd(all, events, t, b, b.sample.data);
    AcceptedFrom(all, events, t, b, v);
    FlushedAt(all, events, v, b);
  }

  /** Something older after something newer. */
  lemma BreaksOrder(out: seq<Emission>, more: seq<Emission>, b: Buffered, n: OpcUaSample)
    requires Polled(b) in out && n in Notifications(more) && n.nodeId == b.sample.nodeId && !Older(b, n)
    ensures !EmittedInOrder(out + more)
  {
    NotificationIsLogged(more, n);
    var i :| 0 <= i < |out| && out[i] == Polled(b);
    var j :| 0 <= j < |more| && more[j] == Notified(n);
    assert (out + more)[i] == Polled(b) && (out + more)[|out| + j] == Notified(n);
  }

  lemma LaterOfWindow(events: seq<Event>, t: nat, v: nat, n: OpcUaSample)
    requires t < |events| && v == WindowEnd(events, t + 1) < |events|
    requires n in Arrivals(events[t + 1..]) && n.nodeId !in NodesOf(Window(events, t))
    ensures n in Arrivals(events[v + 1..])
  {
    ArrivalsOfWindow(events, t, v);
    assert n in Window(events, t) || n in Arrivals(events[v..]);
  }

  /** At some point a flushed sample is out and the late notification is still to come. */
  ghost predicate OutBefore(all: set<OpcUaNodeId>, events: seq<Event>, b: Buffered, n: OpcUaSample, w: nat) {
    w <= |events| && Polled(b) in RunTo(Init(all), events[..w]).out && n in Arrivals(events[w..])
  }

  lemma FlushComesFirst(all: set<OpcUaNodeId>, events: seq<Event>, t: nat, b: Buffered, n: OpcUaSample, v: nat)
    requires Possible(Init(all), events) && ReadAt(all, events, t, b) && v == WindowEnd(events, t + 1) < |events|
    requires b.sample.nodeId !in NodesOf(Window(events, t))
    requires n in Arrivals(events[t + 1..]) && n.nodeId == b.sample.nodeId
    ensures OutBefore(all, events, b, n, v + 1)
  {
    assert Polled(b) in RunTo(Init(all), events[..v + 1]).out by {
      FlushedByWindowEnd(all, events, t, b, v);
    }
    assert n in Arrivals(events[v + 1..]) by {
      LaterOfWindow(events, t, v, n);
    }
  }

  lemma OvertakenBreaksOrder(all: set<OpcUaNodeId>, events: seq<Event>, t: nat, b: Buffered)
    requires Possible(Init(all), events) && ReadAt(all, events, t, b) && Overtaken(events, t, b)
    ensures !EmittedInOrder(RunTo(Init(all), events).out)
  {
    var n :| n in Arrivals(events[t + 1..]) && n.nodeId == b.sample.nodeId && !Older(b, n);
    var v := WindowEnd(events, t + 1);
    FlushComesFirst(all, events, t, b, n, v);
    BrokenAfter(all, events, v + 1, b, n);
  }

  lemma BrokenAfter(all: set<OpcUaNodeId>, events: seq<Event>, w: nat, b: Buffered, n: OpcUaSample)
    requires OutBefore(all, events, b, n, w) && n.nodeId == b.sample.nodeId && !Older(b, n)
    ensures !EmittedInOrder(RunTo(Init(all), events).out)
  {
    var p, r := RunTo(Init(all), events[..w]).out, RunTo(Init(all), events).out;
    LaterNotifications(all, events, w);
    BreaksOrder(p, r[|p|..], b, n);
    assert p + r[|p|..] == r;
  }

  lemma PrefixElements<T>(p: seq<T>, r: seq<T>)
    requires p <= r
    ensures forall i :: 0 <= i < |p| ==> r[i] in p
  {
    assert forall i :: 0 <= i < |p| ==> r[i] == p[i];
  }

  /** A notification that is emitted after a polled sample arrived after it was read. */
  lemma ArrivedAfterRead(all: set<OpcUaNodeId>, events: seq<Event>, t: nat, b: Buffered, i: nat, j: nat)
    requires Possible(Init(all), events) && ReadAt(all, events, t, b)
    requires var out := RunTo(Init(all), events).out; i < j < |out| && out[i] == Polled(b) && out[j].Notified?
    ensures RunTo(Init(all), events).out[j].sample in Arrivals(events[t + 1..])
  {
    var p, r := RunTo(Init(all), events[..t + 1]), RunTo(Init(all), events);
    ReadIsBuffered(all, events, t, b);
    EmissionIsCounted(p.out, b);
    LaterNotifications(all, events, t + 1);
    PrefixElements(p.out, r.out);
    assert r.out[|p.out|..][j - |p.out|] == r.out[j];
    NotificationIsLogged(r.out[|p.out|..], r.out[j].sample);
  }

  /** A sample that a notification outdated is older than all its node notifies from then on. */
  lemma OutdatedIsOlder(all: set<OpcUaNodeId>, events: seq<Event>, t: nat, b: Buffered, n: OpcUaSample)
    requires InOrder(Arrivals(events)) && t < |events| && Outdated(Window(events, t), b)
    requires n in Arrivals(events[t + 1..]) && n.nodeId == b.sample.nodeId
    ensures Older(b, n)
  {
    var v := WindowEnd(events, t + 1);
    ArrivalsOfWindow(events, t, v);
    SplitAt(events, t + 1);
    ArrivalsAppend(events[..t + 1], events[t + 1..]);
    SuffixInOrder(Arrivals(events[..t + 1]), Arrivals(events[t + 1..]));
    FirstIsOldest(Window(events, t), Arrivals(events[v..]), b, n);
  }

  lemma FirstIsOldest(items: seq<OpcUaSample>, rest: seq<OpcUaSample>, b: Buffered, n: OpcUaSample)
    requires InOrder(items + rest) && Outdated(items, b)
    requires n in items + rest && n.nodeId == b.sample.nodeId
    ensures Older(b, n)
  {
    var later := items + rest;
    var k: nat :| Answers(items, k, b) && Older(b, items[k]);
    var m :| 0 <= m < |later| && later[m] == n;
    assert later[k] == items[k];
    assert forall j :: 0 <= j < k ==> later[j] == items[j];
    assert m == k || Before(later[k], later[m]);
  }

  lemma SuffixInOrder(a: seq<OpcUaSample>, b: seq<OpcUaSample>)
    requires InOrder(a + b)
    ensures InOrder(b)
  {
    forall i, j | 0 <= i < j < |b| && b[i].nodeId == b[j].nodeId ensures Before(b[i], b[j]) {
      assert (a + b)[|a| + i] == b[i] && (a + b)[|a| + j] == b[j];
    }
  }

  lemma BrokenPairIsOvertaken(all: set<OpcUaNodeId>, events: seq<Event>, i: nat, j: nat)
    requires Possible(Init(all), events) && Timely(all, events)
    requires var out := RunTo(Init(all), events).out;
             && i < j < |out| && SampleOf(out[i]).nodeId == SampleOf(out[j]).nodeId
             && !Before(SampleOf(out[i]), SampleOf(out[j]))
    ensures exists t: nat, b :: ReadAt(all, events, t, b) && Overtaken(events, t, b)
  {
    var out := RunTo(Init(all), events).out;
    WholeRun(events);
    RunKeepsPollsInOrder(all, events, |events|);
    NotificationsKeepOrder(all, events);
    assert out[..j][i] == out[i];
    assert out[j].Notified?;
    if out[i].Notified? {
      NotifiedInOrder(out, i, j);
    } else {
      var b := out[i].buffered;
      EmittedIff(all, events, b);
      var t: nat :| ReadAt(all, events, t, b) && EmittedAfter(events, t, b);
      ArrivedAfterRead(all, events, t, b, i, j);
      if Outdated(Window(events, t), b) {
        OutdatedIsOlder(all, events, t, b, out[j].sample);
      }
      assert Overtaken(events, t, b);
    }
  }

  /** Over every run on a well-behaved server, all samples of each node are emitted in the order
      of their timestamps, except exactly when some polled sample was flushed and its node
      notified something later that is not newer. */
  lemma OrderBreaksIff(all: set<OpcUaNodeId>, events: seq<Event>)
    requires Possible(Init(all), events) && Timely(all, events)
    ensures !EmittedInOrder(RunTo(Init(all), events).out) <==>
            exists t: nat, b :: ReadAt(all, events, t, b) && Overtaken(events, t, b)
  {
    var out := RunTo(Init(all), events).out;
    if t: nat, b :| ReadAt(all, events, t, b) && Overtaken(events, t, b) {
      OvertakenBreaksOrder(all, events, t, b);
    }
    if !EmittedInOrder(out) {
      var i: nat, j: nat :| i < j < |out| && SampleOf(out[i]).nodeId == SampleOf(out[j]).nodeId
                            && !Before(SampleOf(out[i]), SampleOf(out[j]));
      BrokenPairIsOvertaken(all, events, i, j);
    }
  }

  /** A run of three events: a tick reads the node, the next tick flushes the sample, and then an
      older notification arrives. */
  ghost function OvertakenRun(id: OpcUaNodeId): seq<Event> {
    var sample := OpcUaSample(id, OpcUaDataPoint(10, None, 0));
    var late := OpcUaSample(id, OpcUaDataPoint(5, None, 0));
    [Tick(ReadOk([sample]), []), Tick(ReadFailed, [Buffered(sample, 1)]), Chunk([late])]
  }

  lemma ReadOne(id: OpcUaNodeId, sample: OpcUaSample, tick: nat)
    ensures Extend(map[], [sample], tick) == map[sample.nodeId := Buffered(sample, tick)]
  {
    assert [sample][..0] == [];
    assert Extend(map[], [], tick) == map[];
  }

  lemma StepsOfOvertakenRun(id: OpcUaNodeId, b: Buffered, late: OpcUaSample)
    requires OvertakenRun(id)[1].order == [b] && OvertakenRun(id)[2].items == [late]
    ensures var events, all := OvertakenRun(id), {id};
            var p1 := Pump(all, all, map[id := b], 1, [], [], [all], false);
            var p2 := Pump(all, all, map[], 2, [Polled(b)], [], [all, all], false);
            && Step(Init(all), events[0]) == p1 && Step(p1, events[1]) == p2
            && Step(p2, events[2]).out == [Polled(b), Notified(late)]
            && Enabled(Init(all), events[0]) && Enabled(p1, events[1]) && Enabled(p2, events[2])
  {
    ReadOne(id, b.sample, 1);
    var events, all := OvertakenRun(id), {id};
    var p1 := Pump(all, all, map[id := b], 1, [], [], [all], false);
    var p2 := Pump(all, all, map[], 2, [Polled(b)], [], [all, all], false);
    assert PolledAll([]) == [] && PolledAll([b]) == [Polled(b)];
    assert Step(Init(all), events[0]) == p1;
    assert Step(p1, events[1]) == p2;
    assert [late][..0] == [] && Step(p2, events[2]) == Notify(NotifyAll(p2, []), late);
    assert Step(p2, events[2]).out == [Polled(b)] + [Notified(late)];
  }

  lemma RunOfThree(p: Pump, events: seq<Event>)
    requires |events| == 3
    ensures RunTo(p, events[..0]) == p && RunTo(p, events[..1]) == Step(p, events[0])
    ensures RunTo(p, events[..2]) == Step(Step(p, events[0]), events[1])
    ensures RunTo(p, events) == Step(Step(Step(p, events[0]), events[1]), events[2])
  {
    RunOneMore(p, events, 0);
    RunOneMore(p, events, 1);
    RunOneMore(p, events, 2);
    WholeRun(events);
  }

  lemma StatesOfOvertakenRun(id: OpcUaNodeId)
    ensures var events := OvertakenRun(id);
            && Possible(Init({id}), events)
            && RunTo(Init({id}), events).out == [Polled(events[1].order[0]), Notified(events[2].items[0])]
  {
    var events := OvertakenRun(id);
    StepsOfOvertakenRun(id, events[1].order[0], events[2].items[0]);
    RunOfThree(Init({id}), events);
    forall i | 0 <= i < |events| ensures Enabled(RunTo(Init({id}), events[..i]), events[i]) {
      assert i == 0 || i == 1 || i == 2;
    }
  }

  lemma ArrivalsOfOvertakenRun(id: OpcUaNodeId)
    ensures |Arrivals(OvertakenRun(id))| == 1 && Arrivals(OvertakenRun(id)[..0]) == []
  {
    var events := OvertakenRun(id);
    assert events[..2][..1] == events[..1] && events[..1][..0] == [];
    assert Arrivals(events[..1]) == [] && Arrivals(events[..2]) == [];
  }

  /** So on a well-behaved server the order can break. */
  lemma OrderCanBreak(id: OpcUaNodeId)
    ensures var events := OvertakenRun(id);
            && Possible(Init({id}), events) && Timely({id}, events)
            && !EmittedInOrder(RunTo(Init({id}), events).out)
  {
    var events, all := OvertakenRun(id), {id};
    StatesOfOvertakenRun(id);
    ArrivalsOfOvertakenRun(id);
    forall t: nat, b | ReadAt(all, events, t, b) ensures NewerThanPast(all, events, t, b) {
      assert t == 0;
    }
    var out := RunTo(Init(all), events).out;
    assert SampleOf(out[0]).nodeId == SampleOf(out[1]).nodeId && !Before(SampleOf(out[0]), SampleOf(out[1]));
  }
}
