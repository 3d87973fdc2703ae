/** The in-memory publishers as the program runs them: a bounded buffer object a channel, a numpy
    ring or a deque, behind one publisher. Both kinds refine the same store. */
module ChannelPublisher {
  import opened Wrappers
  import opened RingBuffer
  import opened ChannelBuffer

  // ---- One buffer ----

  datatype Buffer = Ring(ring: NumpyRingBuffer<int>) | Bounded(deque: BoundedDeque<int>)

  ghost function Parts(b: Buffer): set<object> {
    match b
    case Ring(ring) => {ring, ring.buffer}
    case Bounded(deque) => {deque}
  }

  ghost predicate Sound(b: Buffer, maxlen: nat)
    reads Parts(b)
  {
    match b
    case Ring(ring) => ring.Valid() && ring.buffer.Length == maxlen
    case Bounded(deque) => deque.Valid() && deque.maxlen == maxlen
  }

  /** The newest elements of everything ever put into the buffer. */
  ghost function Kept(b: Buffer, maxlen: nat): seq<int>
    reads Parts(b)
  {
    match b
    case Ring(ring) => LastN(ring.history, maxlen)
    case Bounded(deque) => LastN(deque.history, maxlen)
  }

  method NewBuffer(numpy: bool, maxlen: nat) returns (b: Buffer)
    requires numpy ==> maxlen >= 1
    ensures fresh(Parts(b)) && Sound(b, maxlen) && Kept(b, maxlen) == []
  {
    if numpy {
      var ring := new NumpyRingBuffer<int>(maxlen);
      b := Ring(ring);
    } else {
      var deque := new BoundedDeque<int>(maxlen);
      b := Bounded(deque);
    }
  }

  method ExtendBuffer(b: Buffer, values: seq<int>, ghost maxlen: nat)
    requires Sound(b, maxlen)
    modifies Parts(b)
    ensures Sound(b, maxlen) && Kept(b, maxlen) == LastN(old(Kept(b, maxlen)) + values, maxlen)
  {
    match b {
      case Ring(ring) =>
        LastNOfAppend(ring.history, values, maxlen);
        ring.Extend(values);
      case Bounded(deque) =>
        LastNOfAppend(deque.history, values, maxlen);
        deque.Extend(values);
    }
  }

  method GetLatest(b: Buffer, n: nat, ghost maxlen: nat) returns (r: seq<int>)
    requires Sound(b, maxlen)
    ensures r == LastN(Kept(b, maxlen), n)
  {
    match b {
      case Ring(ring) => r := ring.GetLatest(n);
      case Bounded(deque) => r := deque.GetLatest(n);
    }
    LastOfKept(b, n, maxlen);
  }

  lemma LastOfKept(b: Buffer, n: nat, maxlen: nat)
    ensures LastN(Kept(b, maxlen), n) == LastN(match b case Ring(r) => r.history case Bounded(d) => d.history, Capped(n, maxlen))
  {
    var all := match b case Ring(r) => r.history case Bounded(d) => d.history;
    if n <= maxlen {
      LastNOfLastN(all, n, maxlen);
    }
  }

  method BufferLen(b: Buffer, ghost maxlen: nat) returns (n: nat)
    requires Sound(b, maxlen)
    ensures n == |Kept(b, maxlen)|
  {
    match b {
      case Ring(ring) => n := ring.Len();
      case Bounded(deque) => n := deque.Len();
    }
  }

  // ---- A dictionary of buffers ----

  ghost predicate Separate(m: map<string, Buffer>) {
    forall a, b :: a in m && b in m && a != b ==> Parts(m[a]) !! Parts(m[b])
  }

  ghost function Extended(maxlen: nat, contents: map<string, seq<int>>, name: string, more: seq<int>): map<string, seq<int>> {
    contents[name := LastN(Lookup(contents, name, []) + more, maxlen)]
  }

  class BufferTable {
    const numpy: bool
    const maxlen: nat
    var buffers: map<string, Buffer>
    ghost var contents: map<string, seq<int>>  // what each buffer keeps
    ghost var parts: set<object>

    ghost predicate Valid()
      reads this, parts
    {
      && this !in parts && (numpy ==> maxlen >= 1)
      && buffers.Keys == contents.Keys && Separate(buffers)
      && (forall n :: n in buffers ==> Parts(buffers[n]) <= parts)
      && (forall n :: n in buffers ==> Sound(buffers[n], maxlen) && Kept(buffers[n], maxlen) == contents[n])
    }

    constructor (numpy: bool, maxlen: nat)
      requires numpy ==> maxlen >= 1
      ensures Valid() && contents == map[] && parts == {} && this.maxlen == maxlen && this.numpy == numpy
    {
      this.numpy, this.maxlen := numpy, maxlen;
      buffers, contents, parts := map[], map[], {};
    }

    method Add(name: string)
      requires Valid() && name !in contents
      modifies this
      ensures Valid() && old(parts) <= parts && fresh(parts - old(parts))
      ensures contents == old(contents)[name := []]
    {
      var b := NewBuffer(numpy, maxlen);
      SeparateMore(buffers, name, b, parts);
      buffers := buffers[name := b];
      contents := contents[name := []];
      parts := parts + Parts(b);
    }

    method Ensure(name: string)
      requires Valid()
      modifies this
      ensures Valid() && old(parts) <= parts && fresh(parts - old(parts))
      ensures contents == old(contents)[name := Lookup(old(contents), name, [])]
    {
      if name !in buffers {
        Add(name);
      } else {
        assert contents[name := contents[name]] == contents;
      }
    }

    method Extend(name: string, values: seq<int>)
      requires Valid() && name in contents
      modifies this`contents, parts
      ensures Valid() && parts == old(parts)
      ensures contents == old(contents)[name := LastN(old(contents)[name] + values, maxlen)]
    {
      var b := buffers[name];
      assert forall n :: n in buffers && n != name ==> Parts(buffers[n]) !! Parts(b);
      ExtendBuffer(b, values, maxlen);
      contents := contents[name := LastN(contents[name] + values, maxlen)];
    }

    /** Puts `values` into the buffer of `name`, which is made if it is not there. */
    method Append(name: string, values: seq<int>)
      requires Valid()
      modifies this, parts
      ensures Valid() && old(parts) <= parts && fresh(parts - old(parts))
      ensures contents == Extended(maxlen, old(contents), name, values)
    {
      Ensure(name);
      ghost var ensured := contents;
      Extend(name, values);
      UpdateTwice(old(contents), ensured, contents, name, values, maxlen);
    }

    method Points(name: string) returns (n: nat)
      requires Valid() && name in contents
      ensures n == |contents[name]|
    {
      n := BufferLen(buffers[name], maxlen);
    }

    method Latest(name: string, n: nat) returns (r: seq<int>)
      requires Valid() && name in contents
      ensures r == LastN(contents[name], n)
    {
      r := GetLatest(buffers[name], n, maxlen);
    }

    method Clear()
      requires Valid()
      modifies this
      ensures Valid() && contents == map[] && parts == old(parts)
    {
      buffers, contents := map[], map[];
    }
  }

  // ---- The publisher ----

  ghost function BuffersExtended(maxlen: nat, s: Store, name: string, newValues: seq<int>, newTimestamps: seq<int>): Store {
    s.(values := Extended(maxlen, s.values, name, newValues), timestamps := Extended(maxlen, s.timestamps, name, newTimestamps))
  }

  ghost function CountedMore(s: Store, name: string, n: nat): Store {
    s.(counts := s.counts[name := Lookup(s.counts, name, 0) + n])
  }

  class InMemoryPublisher {
    const maxlen: nat
    const values: BufferTable
    const timestamps: BufferTable
    var totalAdded: map<string, nat>
    var closed: bool
    ghost var repr: set<object>

    ghost predicate Valid()
      reads this, repr
    {
      && this !in repr && values in repr && timestamps in repr
      && values.parts <= repr && timestamps.parts <= repr
      && values.Valid() && timestamps.Valid()
      && values.maxlen == timestamps.maxlen == maxlen
      && values != timestamps && values !in timestamps.parts && timestamps !in values.parts
      && values.parts !! timestamps.parts
    }

    ghost function State(): Store
      reads this, values, timestamps
    {
      Store(values.contents, timestamps.contents, totalAdded, closed)
    }

    constructor (numpy: bool, maxlen: nat)
      requires numpy ==> maxlen >= 1
      ensures Valid() && fresh(repr) && this.maxlen == maxlen
      ensures State() == Store(map[], map[], map[], false)
    {
      this.maxlen := maxlen;
      values := new BufferTable(numpy, maxlen);
      timestamps := new BufferTable(numpy, maxlen);
      totalAdded, closed := map[], false;
      new;
      repr := {values, timestamps};
    }

    method ExtendValues(name: string, newValues: seq<int>)
      requires Valid()
      modifies this`repr, values, values.parts
      ensures Valid() && fresh(repr - old(repr)) && timestamps.parts == old(timestamps.parts)
      ensures values.contents == Extended(maxlen, old(values.contents), name, newValues)
      ensures timestamps.contents == old(timestamps.contents)
    {
      values.Append(name, newValues);
      repr := repr + values.parts;
    }

    method ExtendTimestamps(name: string, newTimestamps: seq<int>)
      requires Valid()
      modifies this`repr, timestamps, timestamps.parts
      ensures Valid() && fresh(repr - old(repr))
      ensures timestamps.contents == Extended(maxlen, old(timestamps.contents), name, newTimestamps)
      ensures values.contents == old(values.contents)
    {
      timestamps.Append(name, newTimestamps);
      repr := repr + timestamps.parts;
    }

    method ExtendBuffers(name: string, newValues: seq<int>, newTimestamps: seq<int>)
      requires Valid()
      modifies this`repr, repr
      ensures Valid() && fresh(repr - old(repr))
      ensures State() == BuffersExtended(maxlen, old(State()), name, newValues, newTimestamps)
    {
      ExtendValues(name, newValues);
      ExtendTimestamps(name, newTimestamps);
    }

    method CountMore(name: string, n: nat)
      requires Valid()
      modifies this`totalAdded
      ensures Valid() && State() == CountedMore(old(State()), name, n)
    {
      totalAdded := totalAdded[name := Lookup(totalAdded, name, 0) + n];
    }

    method Extend(name: string, newValues: seq<int>, newTimestamps: seq<int>)
      requires Valid()
      modifies this`totalAdded, this`repr, repr
      ensures Valid() && fresh(repr - old(repr))
      ensures State() == ExtendChannel(maxlen, old(State()), ChannelData(name, newValues), newTimestamps)
    {
      ExtendBuffers(name, newValues, newTimestamps);
      CountMore(name, |newValues|);
      StoreExtended(maxlen, old(State()), name, newValues, newTimestamps);
    }

    method Publish(m: Measurement)
      requires Valid()
      modifies this`totalAdded, this`repr, repr
      ensures Valid() && fresh(repr - old(repr))
      ensures State() == PublishStep(maxlen, old(State()), m)
    {
      for i := 0 to |m.channels|
        invariant Valid() && fresh(repr - old(repr))
        invariant State() == ExtendAll(maxlen, old(State()), m.channels[..i], m.timestamps)
      {
        OneMoreChannel(maxlen, old(State()), m.channels, m.timestamps, i);
        Extend(m.channels[i].name, m.channels[i].values, m.timestamps);
      }
      assert m.channels[..|m.channels|] == m.channels;
    }

    method Close()
      requires Valid()
      modifies this, repr
      ensures Valid() && fresh(repr - old(repr))
      ensures State() == CloseStep(old(State()))
    {
      closed := true;
      values.Clear();
      timestamps.Clear();
      totalAdded := map[];
    }

    /** Ends the wait for a channel. */
    method AwaitChannel(name: string) returns (error: Option<GetError>)
      requires Valid()
      ensures error == Appeared(State(), name)
    {
      if name !in values.buffers && !closed {
        return Some(ChannelNotFound);
      }
      if closed {
        return Some(PublisherClosed);
      }
      return None;
    }

    /** Starts a wait for new samples: remembers how many there were. */
    method BeginWait(name: string) returns (start: nat)
      requires Valid()
      ensures start == Count(State(), name)
    {
      start := Lookup(totalAdded, name, 0);
    }

    method LatestSamples(name: string, length: nat) returns (r: Result<Samples, GetError>)
      requires Valid()
      ensures r == ChannelBuffer.Newest(State(), name, length)
    {
      if name !in values.buffers || name !in timestamps.buffers {
        return Err(ChannelCleared);
      }
      var points := values.Points(name);
      var n := if length < points then length else points;
      var newest := values.Latest(name, n);
      var stamps := timestamps.Latest(name, n);
      r := Ok(Samples(newest, stamps));
    }

    /** Ends a wait for `length` new samples beyond `start`. */
    method EndWait(name: string, length: nat, start: nat) returns (r: Result<Samples, GetError>)
      requires Valid()
      ensures r == GetNew(State(), name, length, start)
    {
      var enough := Lookup(totalAdded, name, 0) >= start + length;
      if !enough && !closed {
        return Err(ValueTimeout);
      }
      if closed {
        if !enough {
          return Err(ValueTimeout);
        }
      }
      r := LatestSamples(name, length);
    }

    /** Ends a wait for a buffer that holds `length` samples; with its time used up there is none. */
    method EndBufferedWait(name: string, length: nat, expired: bool) returns (r: Result<Samples, GetError>)
      requires Valid()
      ensures r == GetBuffered(State(), name, length, expired)
    {
      if name !in values.buffers {
        return Err(ChannelCleared);
      }
      var points := values.Points(name);
      if !expired {
        if points < length && !closed {
          return Err(ValueTimeout);
        }
      }
      if closed {
        if points < length {
          return Err(ValueTimeout);
        }
      }
      r := LatestSamples(name, length);
    }

    method Handle(e: Event)
      requires Valid()
      modifies this, repr
      ensures Valid() && fresh(repr - old(repr))
      ensures State() == if e.Close? then CloseStep(old(State())) else PublishStep(maxlen, old(State()), e.m)
    {
      match e {
        case Publish(m) => Publish(m);
        case Close => Close();
      }
    }

    /** What other threads publish and close while a reader waits. */
    method Play(events: seq<Event>, ghost before: seq<Event>)
      requires Valid() && State() == After(maxlen, before)
      modifies this, repr
      ensures Valid() && fresh(repr - old(repr))
      ensures State() == After(maxlen, before + events)
    {
      if events == [] {
        assert before + events == before;
      } else {
        Play(events[..|events| - 1], before);
        Handle(events[|events| - 1]);
        OneMoreEvent(maxlen, before, events);
      }
    }
  }

  lemma UpdateTwice(first: map<string, seq<int>>, ensured: map<string, seq<int>>, after: map<string, seq<int>>, name: string,
                    more: seq<int>, maxlen: nat)
    requires ensured == first[name := Lookup(first, name, [])]
    requires after == ensured[name := LastN(ensured[name] + more, maxlen)]
    ensures after == Extended(maxlen, first, name, more)
  {}

  lemma StoreExtended(maxlen: nat, s: Store, name: string, newValues: seq<int>, newTimestamps: seq<int>)
    ensures CountedMore(BuffersExtended(maxlen, s, name, newValues, newTimestamps), name, |newValues|) ==
            ExtendChannel(maxlen, s, ChannelData(name, newValues), newTimestamps)
  {}

  lemma SeparateMore(m: map<string, Buffer>, name: string, b: Buffer, parts: set<object>)
    requires Separate(m) && Parts(b) !! parts && forall n :: n in m ==> Parts(m[n]) <= parts
    ensures Separate(m[name := b])
  {}

  lemma OneMoreChannel(maxlen: nat, s: Store, channels: seq<ChannelData>, stamps: seq<int>, i: nat)
    requires i < |channels|
    ensures ExtendAll(maxlen, s, channels[..i + 1], stamps) ==
            ExtendChannel(maxlen, ExtendAll(maxlen, s, channels[..i], stamps),
                          ChannelData(channels[i].name, channels[i].values), stamps)
  {
    assert channels[..i + 1][..i] == channels[..i];
  }

  lemma OneMoreEvent(maxlen: nat, before: seq<Event>, events: seq<Event>)
    requires events != []
    ensures var s, last := After(maxlen, before + events[..|events| - 1]), events[|events| - 1];
            After(maxlen, before + events) == if last.Close? then CloseStep(s) else PublishStep(maxlen, s, last.m)
  {
    LastOfSum(before, events);
    AfterLast(maxlen, before + events);
  }

  lemma LastOfSum(before: seq<Event>, events: seq<Event>)
    requires events != []
    ensures var all := before + events;
            all[..|all| - 1] == before + events[..|events| - 1] && all[|all| - 1] == events[|events| - 1]
  {}

  lemma AfterLast(maxlen: nat, all: seq<Event>)
    requires all != []
    ensures var s, last := After(maxlen, all[..|all| - 1]), all[|all| - 1];
            After(maxlen, all) == if last.Close? then CloseStep(s) else PublishStep(maxlen, s, last.m)
  {}

  // ---- A read amid publishes and closes ----

  method PublisherAfter(numpy: bool, maxlen: nat, before: seq<Event>) returns (p: InMemoryPublisher)
    requires numpy ==> maxlen >= 1
    ensures fresh(p) && p.Valid() && fresh(p.repr) && p.maxlen == maxlen && p.State() == After(maxlen, before)
  {
    p := new InMemoryPublisher(numpy, maxlen);
    assert [] + before == before;
    p.Play(before, []);
  }

  /** Looks for the channel after `before` and waits for it while `appearing` happens. */
  method FindChannel(p: InMemoryPublisher, ghost before: seq<Event>, appearing: seq<Event>, name: string)
    returns (error: Option<GetError>)
    requires p.Valid() && p.State() == After(p.maxlen, before)
    modifies p, p.repr
    ensures p.Valid() && fresh(p.repr - old(p.repr)) && p.State() == After(p.maxlen, before + appearing)
    ensures error == if name in After(p.maxlen, before).values then None else Appeared(After(p.maxlen, before + appearing), name)
  {
    var there := name in p.values.buffers;
    p.Play(appearing, before);
    error := None;
    if !there {
      error := p.AwaitChannel(name);
    }
  }

  /** Starts counting after `between` and ends the wait after `during`. */
  method CountSamples(p: InMemoryPublisher, ghost found: seq<Event>, between: seq<Event>, during: seq<Event>, name: string,
                      length: nat)
    returns (r: Result<Samples, GetError>)
    requires p.Valid() && p.State() == After(p.maxlen, found)
    modifies p, p.repr
    ensures var started, ended := After(p.maxlen, found + between), After(p.maxlen, found + between + during);
            r == GetNew(ended, name, length, Count(started, name))
  {
    p.Play(between, found);
    var start := p.BeginWait(name);
    p.Play(during, found + between);
    r := p.EndWait(name, length, start);
  }

  /** The two kinds of publisher answer alike: a read of new samples depends on what is published
      and closed before it, while it waits for the channel, until it starts counting, and until
      it goes on, and not on the kind of buffer. */
  method ReadNewSamples(numpy: bool, maxlen: nat, before: seq<Event>, appearing: seq<Event>, between: seq<Event>,
                        during: seq<Event>, name: string, length: nat)
    returns (r: Result<Samples, GetError>)
    requires numpy ==> maxlen >= 1
    ensures var found := before + appearing;
            r == ReadNew(After(maxlen, before), After(maxlen, found), After(maxlen, found + between),
                         After(maxlen, found + between + during), name, length)
  {
    var p := PublisherAfter(numpy, maxlen, before);
    var error := FindChannel(p, before, appearing, name);
    if error.Some? {
      return Err(error.value);
    }
    r := CountSamples(p, before + appearing, between, during, name, length);
  }

  /** Nor does a read of buffered samples, during which others act only if it waits for samples. */
  method ReadBufferedSamples(numpy: bool, maxlen: nat, before: seq<Event>, during: seq<Event>, name: string, length: nat,
                             expired: bool)
    returns (r: Result<Samples, GetError>)
    requires numpy ==> maxlen >= 1
    ensures r == ReadBuffered(After(maxlen, before), After(maxlen, before + during), name, length, expired)
  {
    var p := PublisherAfter(numpy, maxlen, before);
    var error := p.AwaitChannel(name);
    if error.Some? {
      return Err(error.value);
    }
    if !expired {
      p.Play(during, before);
    }
    r := p.EndBufferedWait(name, length, expired);
  }
}
