/** The in-memory channel buffers: publishing into bounded buffers, and blocking reads of the
    newest samples. Every step below holds the publisher's lock; a blocked reader gives the
    lock up between the step that starts its wait and the step that ends it. */
module ChannelBuffer {
  import opened Wrappers
  import opened RingBuffer

  /** A sample value; the buffers only store it. */
  type Value = int

  datatype ChannelData = ChannelData(name: string, values: seq<Value>)

  /** Channels in the order they are published; all share the timestamps. */
  datatype Measurement = Measurement(channels: seq<ChannelData>, timestamps: seq<int>)

  datatype Store = Store(
    values: map<string, seq<Value>>,
    timestamps: map<string, seq<int>>,
    counts: map<string, nat>,
    closed: bool)

  datatype GetError =
    | ChannelNotFound  // the channel did not appear in time
    | PublisherClosed  // the publisher was closed when the channel was looked for
    | ValueTimeout     // too few samples in time, or before the close
    | ChannelCleared   // a close removed the channel under the reader

  datatype Samples = Samples(values: seq<Value>, timestamps: seq<int>)

  function Lookup<T>(m: map<string, T>, name: string, default: T): T {
    if name in m then m[name] else default
  }

  function Count(s: Store, name: string): nat {
    Lookup(s.counts, name, 0)
  }

  // ---- One step ----

  function ExtendChannel(maxlen: nat, s: Store, c: ChannelData, timestamps: seq<int>): Store {
    Store(
      s.values[c.name := LastN(Lookup(s.values, c.name, []) + c.values, maxlen)],
      s.timestamps[c.name := LastN(Lookup(s.timestamps, c.name, []) + timestamps, maxlen)],
      s.counts[c.name := Count(s, c.name) + |c.values|],
      s.closed)
  }

  function ExtendAll(maxlen: nat, s: Store, channels: seq<ChannelData>, timestamps: seq<int>): Store {
    if channels == [] then s
    else
      var k := |channels| - 1;
      ExtendChannel(maxlen, ExtendAll(maxlen, s, channels[..k], timestamps), channels[k], timestamps)
  }

  function PublishStep(maxlen: nat, s: Store, m: Measurement): Store {
    ExtendAll(maxlen, s, m.channels, m.timestamps)
  }

  /** Closing also forgets everything, the counts included. */
  function CloseStep(s: Store): Store {
    Store(map[], map[], map[], true)
  }

  /** A reader waiting for a channel to appear may go on. */
  predicate ChannelReady(s: Store, name: string) {
    name in s.values || s.closed
  }

  /** What stops a reader that waited for a channel. */
  function Appeared(s: Store, name: string): Option<GetError> {
    if !ChannelReady(s, name) then Some(ChannelNotFound) else if s.closed then Some(PublisherClosed) else None
  }

  /** A reader waiting for new samples may go on. */
  predicate Ready(s: Store, name: string, length: nat, start: nat) {
    Count(s, name) >= start + length || s.closed
  }

  /** What a reader that waited for `length` samples beyond `start` gets when it goes on. */
  function GetNew(s: Store, name: string, length: nat, start: nat): Result<Samples, GetError> {
    if !Ready(s, name, length, start) then Err(ValueTimeout)
    else if s.closed && Count(s, name) < start + length then Err(ValueTimeout)
    else Newest(s, name, length)
  }

  function Newest(s: Store, name: string, length: nat): Result<Samples, GetError> {
    if name !in s.values || name !in s.timestamps then Err(ChannelCleared)
    else
      var n := Capped(length, |s.values[name]|);
      Ok(Samples(LastN(s.values[name], n), LastN(s.timestamps[name], n)))
  }

  /** A reader of buffered samples may go on; with its time used up it does not wait at all. */
  predicate BufferReady(s: Store, name: string, length: nat, expired: bool) {
    expired || s.closed || (name in s.values && |s.values[name]| >= length)
  }

  /** What a reader that waited for buffered samples gets when it goes on. */
  function GetBuffered(s: Store, name: string, length: nat, expired: bool): Result<Samples, GetError> {
    if name !in s.values then Err(ChannelCleared)
    else if !BufferReady(s, name, length, expired) then Err(ValueTimeout)
    else if s.closed && |s.values[name]| < length then Err(ValueTimeout)
    else Newest(s, name, length)
  }

  /** A whole read of new samples: the channel is looked for in `looked`, waited for until
      `found` if it is not there, the wait for samples starts in `started` and ends in `ended`. */
  function ReadNew(looked: Store, found: Store, started: Store, ended: Store, name: string, length: nat): Result<Samples, GetError> {
    if name !in looked.values && Appeared(found, name).Some? then Err(Appeared(found, name).value)
    else GetNew(ended, name, length, Count(started, name))
  }

  /** A whole read of buffered samples: the channel is waited for until `found`, the samples
      until `ended`. With its time used up the read does not wait for samples, and so does not
      give the lock up: it ends where the channel was found. */
  function ReadBuffered(found: Store, ended: Store, name: string, length: nat, expired: bool): Result<Samples, GetError> {
    if Appeared(found, name).Some? then Err(Appeared(found, name).value)
    else GetBuffered(if expired then found else ended, name, length, expired)
  }

  // ---- Runs ----

  datatype Event = Publish(m: Measurement) | Close

  ghost function After(maxlen: nat, events: seq<Event>): Store {
    if events == [] then Store(map[], map[], map[], false)
    else
      var before, last := After(maxlen, events[..|events| - 1]), events[|events| - 1];
      if last.Close? then CloseStep(before) else PublishStep(maxlen, before, last.m)
  }

  ghost function ValuesFor(channels: seq<ChannelData>, name: string): seq<Value> {
    if channels == [] then []
    else
      var k := |channels| - 1;
      ValuesFor(channels[..k], name) + if channels[k].name == name then channels[k].values else []
  }

  ghost function StampsFor(channels: seq<ChannelData>, timestamps: seq<int>, name: string): seq<int> {
    if channels == [] then []
    else
      var k := |channels| - 1;
      StampsFor(channels[..k], timestamps, name) + if channels[k].name == name then timestamps else []
  }

  /** All values of a channel published since the last close, oldest first. */
  ghost function History(events: seq<Event>, name: string): seq<Value> {
    if events == [] || events[|events| - 1].Close? then []
    else
      var m := events[|events| - 1].m;
      History(events[..|events| - 1], name) + ValuesFor(m.channels, name)
  }

  ghost function Stamps(events: seq<Event>, name: string): seq<int> {
    if events == [] || events[|events| - 1].Close? then []
    else
      var m := events[|events| - 1].m;
      Stamps(events[..|events| - 1], name) + StampsFor(m.channels, m.timestamps, name)
  }

  ghost predicate EqualLengths(events: seq<Event>) {
    forall i :: 0 <= i < |events| && events[i].Publish? ==> EvenMeasurement(events[i].m)
  }

  ghost predicate EvenMeasurement(m: Measurement) {
    forall c :: c in m.channels ==> |c.values| == |m.timestamps|
  }

  ghost predicate HasClose(events: seq<Event>) {
    exists i :: 0 <= i < |events| && events[i].Close?
  }

  /** The buffers of one channel hold the ends of `values` and `stamps`, and count the values. */
  ghost predicate Holds(s: Store, maxlen: nat, name: string, values: seq<Value>, stamps: seq<int>) {
    && (name in s.values <==> name in s.timestamps)
    && (name !in s.values ==> values == [] && stamps == [])
    && Lookup(s.values, name, []) == LastN(values, maxlen)
    && Lookup(s.timestamps, name, []) == LastN(stamps, maxlen)
    && Count(s, name) == |values|
  }

  lemma ExtendHolds(maxlen: nat, s: Store, c: ChannelData, timestamps: seq<int>, name: string, values: seq<Value>, stamps: seq<int>)
    requires Holds(s, maxlen, name, values, stamps)
    ensures Holds(ExtendChannel(maxlen, s, c, timestamps), maxlen, name,
                  values + (if c.name == name then c.values else []),
                  stamps + (if c.name == name then timestamps else []))
  {
    if c.name == name {
      LastNOfAppend(values, c.values, maxlen);
      LastNOfAppend(stamps, timestamps, maxlen);
    } else {
      assert values + [] == values && stamps + [] == stamps;
    }
  }

  lemma {:induction false} ExtendAllHolds(maxlen: nat, s: Store, channels: seq<ChannelData>, timestamps: seq<int>, name: string,
                                          values: seq<Value>, stamps: seq<int>)
    requires Holds(s, maxlen, name, values, stamps)
    ensures Holds(ExtendAll(maxlen, s, channels, timestamps), maxlen, name,
                  values + ValuesFor(channels, name), stamps + StampsFor(channels, timestamps, name))
    ensures ExtendAll(maxlen, s, channels, timestamps).closed == s.closed
  {
    if channels == [] {
      assert values + [] == values && stamps + [] == stamps;
    } else {
      var k := |channels| - 1;
      var front, v, t := channels[..k], ValuesFor(channels[..k], name), StampsFor(channels[..k], timestamps, name);
      ExtendAllHolds(maxlen, s, front, timestamps, name, values, stamps);
      ExtendHolds(maxlen, ExtendAll(maxlen, s, front, timestamps), channels[k], timestamps, name, values + v, stamps + t);
      AppendAssoc(values, v, if channels[k].name == name then channels[k].values else []);
      AppendAssoc(stamps, t, if channels[k].name == name then timestamps else []);
    }
  }

  lemma AppendAssoc<T>(a: seq<T>, b: seq<T>, c: seq<T>)
    ensures a + b + c == a + (b + c)
  {}

  /** The buffers hold the newest `maxlen` samples since the last close, and the counter counts them all. */
  lemma {:induction false} BuffersHoldNewest(maxlen: nat, events: seq<Event>, name: string)
    ensures Holds(After(maxlen, events), maxlen, name, History(events, name), Stamps(events, name))
    ensures After(maxlen, events).closed <==> HasClose(events)
  {
    if events != [] {
      var k := |events| - 1;
      BuffersHoldNewest(maxlen, events[..k], name);
      ClosedOfPrefix(events);
      if events[k].Publish? {
        ExtendAllHolds(maxlen, After(maxlen, events[..k]), events[k].m.channels, events[k].m.timestamps, name,
                       History(events[..k], name), Stamps(events[..k], name));
      }
    }
  }

  lemma ClosedOfPrefix(events: seq<Event>)
    requires events != []
    ensures HasClose(events) <==> events[|events| - 1].Close? || HasClose(events[..|events| - 1])
  {
    var k := |events| - 1;
    if HasClose(events) && !events[k].Close? {
      var i :| 0 <= i < |events| && events[i].Close?;
      assert events[..k][i].Close?;
    }
    if HasClose(events[..k]) {
      var i :| 0 <= i < k && events[..k][i].Close?;
      assert events[i].Close?;
    }
  }

  lemma {:induction false} HistoryAppend(a: seq<Event>, b: seq<Event>, name: string)
    ensures History(a + b, name) == if HasClose(b) then History(b, name) else History(a, name) + History(b, name)
    ensures Stamps(a + b, name) == if HasClose(b) then Stamps(b, name) else Stamps(a, name) + Stamps(b, name)
  {
    if b == [] {
      assert a + b == a;
    } else {
      var k := |b| - 1;
      assert (a + b)[..|a + b| - 1] == a + b[..k];
      HistoryAppend(a, b[..k], name);
      ClosedOfPrefix(b);
      if b[k].Publish? {
        AppendAssoc(History(a, name), History(b[..k], name), ValuesFor(b[k].m.channels, name));
        AppendAssoc(Stamps(a, name), Stamps(b[..k], name), StampsFor(b[k].m.channels, b[k].m.timestamps, name));
      }
    }
  }

  lemma {:induction false} EvenChannels(channels: seq<ChannelData>, timestamps: seq<int>, name: string)
    requires forall c :: c in channels ==> |c.values| == |timestamps|
    ensures |ValuesFor(channels, name)| == |StampsFor(channels, timestamps, name)|
  {
    if channels != [] {
      EvenChannels(channels[..|channels| - 1], timestamps, name);
    }
  }

  lemma {:induction false} EqualHistories(events: seq<Event>, name: string)
    requires EqualLengths(events)
    ensures |History(events, name)| == |Stamps(events, name)|
  {
    if events != [] && events[|events| - 1].Publish? {
      var k := |events| - 1;
      assert forall i :: 0 <= i < k ==> events[..k][i] == events[i];
      EqualHistories(events[..k], name);
      assert EvenMeasurement(events[k].m);
      EvenChannels(events[k].m.channels, events[k].m.timestamps, name);
    }
  }

  // ---- What a blocked reader gets ----

  lemma NewestOfHeld(s: Store, maxlen: nat, name: string, values: seq<Value>, stamps: seq<int>, length: nat)
    requires Holds(s, maxlen, name, values, stamps) && values != [] && length <= |values| == |stamps|
    ensures var n := Capped(length, maxlen);
            Newest(s, name, length) == Ok(Samples(LastN(values, n), LastN(stamps, n)))
  {
    var n := Capped(length, maxlen);
    LastNOfLastN(values, n, maxlen);
    LastNOfLastN(stamps, n, maxlen);
  }

  lemma LastNOfSuffix<T>(a: seq<T>, b: seq<T>, n: nat)
    requires n <= |b|
    ensures LastN(a + b, n) == LastN(b, n)
  {
    assert |LastN(a + b, n)| == |LastN(b, n)|;
  }

  /** While the publisher is open, a reader that started its wait after `before` and goes on
      after the further events `during` gets exactly the newest `min(length, maxlen)` samples,
      all of them published during the wait, each with its own timestamp. */
  lemma WaitReturnsNewSamples(maxlen: nat, before: seq<Event>, during: seq<Event>, name: string, length: nat)
    requires length > 0 && EqualLengths(before + during)
    requires !HasClose(before + during)
    requires Ready(After(maxlen, before + during), name, length, Count(After(maxlen, before), name))
    ensures var n := Capped(length, maxlen);
            && length <= |History(during, name)| == |Stamps(during, name)|
            && GetNew(After(maxlen, before + during), name, length, Count(After(maxlen, before), name)) ==
               Ok(Samples(LastN(History(during, name), n), LastN(Stamps(during, name), n)))
  {
    var all := before + during;
    BuffersHoldNewest(maxlen, before, name);
    BuffersHoldNewest(maxlen, all, name);
    SplitRun(before, during);
    HistoryAppend(before, during, name);
    EqualHistories(before, name);
    EqualHistories(during, name);
    NewestOfHeld(After(maxlen, all), maxlen, name, History(all, name), Stamps(all, name), length);
    LastNOfSuffix(History(before, name), History(during, name), Capped(length, maxlen));
    LastNOfSuffix(Stamps(before, name), Stamps(during, name), Capped(length, maxlen));
  }

  // ---- When a channel is there ----

  ghost predicate Lists(channels: seq<ChannelData>, name: string) {
    exists i :: 0 <= i < |channels| && channels[i].name == name
  }

  /** Some publish has listed the channel. */
  ghost predicate Mentioned(events: seq<Event>, name: string) {
    exists i :: 0 <= i < |events| && events[i].Publish? && Lists(events[i].m.channels, name)
  }

  lemma {:induction false} ExtendAllAdds(maxlen: nat, s: Store, channels: seq<ChannelData>, timestamps: seq<int>, name: string)
    ensures name in ExtendAll(maxlen, s, channels, timestamps).values <==> name in s.values || Lists(channels, name)
  {
    if channels != [] {
      var k := |channels| - 1;
      ExtendAllAdds(maxlen, s, channels[..k], timestamps, name);
      assert Lists(channels, name) <==> Lists(channels[..k], name) || channels[k].name == name by {
        assert forall i :: 0 <= i < k ==> channels[..k][i] == channels[i];
      }
    }
  }

  lemma MentionedOfPrefix(events: seq<Event>, name: string)
    requires events != []
    ensures var k := |events| - 1;
            Mentioned(events, name) <==>
            Mentioned(events[..k], name) || (events[k].Publish? && Lists(events[k].m.channels, name))
  {
    assert forall i :: 0 <= i < |events| - 1 ==> events[..|events| - 1][i] == events[i];
  }

  /** Until it is closed, a publisher knows exactly the channels that were published. */
  lemma {:induction false} ChannelIsThereIff(maxlen: nat, events: seq<Event>, name: string)
    requires !HasClose(events)
    ensures name in After(maxlen, events).values <==> Mentioned(events, name)
  {
    if events != [] {
      var k := |events| - 1;
      ClosedOfPrefix(events);
      MentionedOfPrefix(events, name);
      ChannelIsThereIff(maxlen, events[..k], name);
      ExtendAllAdds(maxlen, After(maxlen, events[..k]), events[k].m.channels, events[k].m.timestamps, name);
    }
  }

  /** A whole read of new samples from a publisher that stays open, with whatever is published
      before it, while it looks for the channel, until it starts counting, and while it waits: it
      fails at once when the channel never appears; otherwise it succeeds exactly when enough
      samples are published during the wait, and returns the newest of those. */
  lemma NewReadReturnsNewest(maxlen: nat, before: seq<Event>, appearing: seq<Event>, between: seq<Event>, during: seq<Event>,
                             name: string, length: nat)
    requires length > 0
    requires var all := before + appearing + between + during; EqualLengths(all) && !HasClose(all)
    ensures var found := before + appearing;
            var r := ReadNew(After(maxlen, before), After(maxlen, found), After(maxlen, found + between),
                             After(maxlen, found + between + during), name, length);
            var n := Capped(length, maxlen);
            if !Mentioned(found, name) then r == Err(ChannelNotFound)
            else if |History(during, name)| < length then r == Err(ValueTimeout)
            else r == Ok(Samples(LastN(History(during, name), n), LastN(Stamps(during, name), n)))
  {
    var found := before + appearing;
    SplitRun(found + between, during);
    SplitRun(found, between);
    SplitRun(before, appearing);
    ChannelIsThereIff(maxlen, before, name);
    ChannelIsThereIff(maxlen, found, name);
    assert Mentioned(before, name) ==> Mentioned(found, name) by {
      assert forall i :: 0 <= i < |before| ==> found[i] == before[i];
    }
    BuffersHoldNewest(maxlen, found, name);
    CountedDuring(maxlen, found + between, during, name, length);
  }

  lemma CountedDuring(maxlen: nat, started: seq<Event>, during: seq<Event>, name: string, length: nat)
    requires length > 0 && EqualLengths(started + during) && !HasClose(started + during)
    ensures var r := GetNew(After(maxlen, started + during), name, length, Count(After(maxlen, started), name));
            var n := Capped(length, maxlen);
            if |History(during, name)| < length then r == Err(ValueTimeout)
            else r == Ok(Samples(LastN(History(during, name), n), LastN(Stamps(during, name), n)))
  {
    SplitRun(started, during);
    HistoryAppend(started, during, name);
    BuffersHoldNewest(maxlen, started, name);
    BuffersHoldNewest(maxlen, started + during, name);
    if |History(during, name)| >= length {
      WaitReturnsNewSamples(maxlen, started, during, name, length);
    }
  }

  lemma SplitRun(a: seq<Event>, b: seq<Event>)
    ensures EqualLengths(a + b) ==> EqualLengths(a) && EqualLengths(b)
    ensures HasClose(a + b) <==> HasClose(a) || HasClose(b)
  {
    assert forall i :: 0 <= i < |a| ==> (a + b)[i] == a[i];
    assert forall i :: 0 <= i < |b| ==> (a + b)[|a| + i] == b[i];
  }

  /** A reader of new samples that a close overtakes still gets data exactly when enough samples
      of the channel are published after the close: the counts start again from zero, the
      publisher does not refuse them, and the reader only compares counts. It then gets the
      newest of the samples published after the close. */
  lemma DataAfterCloseIff(maxlen: nat, before: seq<Event>, during: seq<Event>, late: seq<Event>, name: string, length: nat)
    requires length > 0 && !HasClose(late)
    ensures var r := GetNew(After(maxlen, before + during + [Close] + late), name, length, Count(After(maxlen, before), name));
            && (r.Ok? <==> |History(late, name)| >= |History(before, name)| + length)
            && (r.Ok? && EqualLengths(late) ==>
                  var n := Capped(length, maxlen);
                  r.value == Samples(LastN(History(late, name), n), LastN(Stamps(late, name), n)))
  {
    BuffersHoldNewest(maxlen, before, name);
    HoldsAfterClose(maxlen, before + during, late, name);
    if EqualLengths(late) && |History(late, name)| >= |History(before, name)| + length {
      EqualHistories(late, name);
      NewestOfHeld(After(maxlen, before + during + [Close] + late), maxlen, name, History(late, name), Stamps(late, name), length);
    }
  }

  /** A reader waiting for buffered samples that a close overtakes gets data exactly when it may
      get that many samples at all and that many are published after the close, and then the
      newest of them. */
  lemma BufferedDataAfterCloseIff(maxlen: nat, before: seq<Event>, during: seq<Event>, late: seq<Event>, name: string, length: nat)
    requires length > 0 && !HasClose(late)
    requires ChannelReady(After(maxlen, before), name) && !HasClose(before)
    ensures var r := ReadBuffered(After(maxlen, before), After(maxlen, before + during + [Close] + late), name, length, false);
            && (r.Ok? <==> length <= maxlen && length <= |History(late, name)|)
            && (r.Ok? && EqualLengths(late) ==>
                  r.value == Samples(LastN(History(late, name), length), LastN(Stamps(late, name), length)))
  {
    BuffersHoldNewest(maxlen, before, name);
    HoldsAfterClose(maxlen, before + during, late, name);
    if EqualLengths(late) && length <= maxlen && length <= |History(late, name)| {
      EqualHistories(late, name);
      NewestOfHeld(After(maxlen, before + during + [Close] + late), maxlen, name, History(late, name), Stamps(late, name), length);
    }
  }

  /** After a close the buffers know nothing but what was published since. */
  lemma HoldsAfterClose(maxlen: nat, past: seq<Event>, late: seq<Event>, name: string)
    requires !HasClose(late)
    ensures var s := After(maxlen, past + [Close] + late);
            s.closed && Holds(s, maxlen, name, History(late, name), Stamps(late, name))
  {
    var closed := past + [Close];
    BuffersHoldNewest(maxlen, closed + late, name);
    assert closed[|closed| - 1].Close?;
    SplitRun(closed, late);
    HistoryAppend(closed, late, name);
    assert History(closed, name) == [] && Stamps(closed, name) == [];
    assert [] + History(late, name) == History(late, name) && [] + Stamps(late, name) == Stamps(late, name);
  }

  /** So after a close that no publish follows, no read that is still waiting returns data, ... */
  lemma NoDataAfterFinalClose(maxlen: nat, before: seq<Event>, name: string, length: nat, start: nat, expired: bool)
    ensures GetNew(After(maxlen, before + [Close]), name, length, start).Err?
    ensures GetBuffered(After(maxlen, before + [Close]), name, length, expired).Err?
  {
    assert (before + [Close])[..|before|] == before;
  }

  /** ... and a read that starts on a closed publisher never does, whatever was published since
      the close: a read of buffered samples is refused at once, and a read of new samples is
      refused or, when others publish the channel before it starts counting, finds its wait
      ended as soon as it begins. */
  lemma NoDataWhenStartedClosed(maxlen: nat, events: seq<Event>, appearing: seq<Event>, between: seq<Event>, ended: Store,
                                name: string, length: nat, expired: bool)
    requires length > 0 && HasClose(events)
    ensures ReadBuffered(After(maxlen, events), ended, name, length, expired) == Err(PublisherClosed)
    ensures var found := events + appearing;
            var started := After(maxlen, found + between);
            && Ready(started, name, length, Count(started, name))
            && ReadNew(After(maxlen, events), After(maxlen, found), started, started, name, length).Err?
  {
    SplitRun(events, appearing);
    SplitRun(events + appearing, between);
    BuffersHoldNewest(maxlen, events, name);
    BuffersHoldNewest(maxlen, events + appearing + between, name);
  }

  /** A concrete run in which a closed publisher hands out data, on both kinds of read. */
  lemma ClosedPublisherCanReturnData(name: string)
    ensures var early := [Publish(Measurement([ChannelData(name, [])], []))];
            var late := [Publish(Measurement([ChannelData(name, [7])], [1]))];
            var ended := After(4, early + [] + [Close] + late);
            && GetNew(ended, name, 1, Count(After(4, early), name)).Ok?
            && ReadBuffered(After(4, early), ended, name, 1, false).Ok?
  {
    var early, late := Once(name, [], []), Once(name, [7], [1]);
    OnePublish(4, name, [], []);
    OnePublish(4, name, [7], [1]);
    DataAfterCloseIff(4, early, [], late, name, 1);
    BufferedDataAfterCloseIff(4, early, [], late, name, 1);
  }

  /** A run of one publish of one channel. */
  ghost function Once(name: string, values: seq<Value>, stamps: seq<int>): seq<Event> {
    [Publish(Measurement([ChannelData(name, values)], stamps))]
  }

  lemma OneHistory(name: string, values: seq<Value>, stamps: seq<int>)
    ensures var events := Once(name, values, stamps);
            History(events, name) == values && Stamps(events, name) == stamps && !HasClose(events)
  {
    var events, channels := Once(name, values, stamps), [ChannelData(name, values)];
    assert events[..0] == [] && channels[..0] == [];
    assert ValuesFor(channels, name) == ValuesFor(channels[..0], name) + values == [] + values == values;
    assert StampsFor(channels, stamps, name) == StampsFor(channels[..0], stamps, name) + stamps == [] + stamps == stamps;
    assert [] + values == values && [] + stamps == stamps;
  }

  lemma OnePublish(maxlen: nat, name: string, values: seq<Value>, stamps: seq<int>)
    ensures var events := Once(name, values, stamps);
            && History(events, name) == values && Stamps(events, name) == stamps && !HasClose(events)
            && name in After(maxlen, events).values && (|values| == |stamps| ==> EqualLengths(events))
  {
    var events, channels := Once(name, values, stamps), [ChannelData(name, values)];
    OneHistory(name, values, stamps);
    assert events[..0] == [] && After(maxlen, events) == ExtendAll(maxlen, After(maxlen, []), channels, stamps);
    ExtendAllNames(maxlen, After(maxlen, []), channels, stamps);
  }

  lemma ExtendAllNames(maxlen: nat, s: Store, channels: seq<ChannelData>, timestamps: seq<int>)
    requires channels != []
    ensures channels[|channels| - 1].name in ExtendAll(maxlen, s, channels, timestamps).values
  {}

  /** A read of buffered samples from a publisher that stays open fails at once when the channel
      does not appear; otherwise it succeeds exactly when the buffer holds enough samples or the
      time is used up, and returns the newest samples; they are as many as were asked for exactly
      when the buffer holds that many. */
  lemma BufferedReadReturnsNewest(maxlen: nat, before: seq<Event>, during: seq<Event>, name: string, length: nat, expired: bool)
    requires length > 0 && EqualLengths(before + during) && !HasClose(before + during)
    ensures var seen := if expired then before else before + during;
            var history, stamps := History(seen, name), Stamps(seen, name);
            var kept := Capped(|history|, maxlen);
            var r := ReadBuffered(After(maxlen, before), After(maxlen, before + during), name, length, expired);
            if !Mentioned(before, name) then r == Err(ChannelNotFound)
            else if !expired && length > kept then r == Err(ValueTimeout)
            else
              && r == Ok(Samples(LastN(history, Capped(length, kept)), LastN(stamps, Capped(length, kept))))
              && (|r.value.values| == length <==> length <= kept)
  {
    SplitRun(before, during);
    BuffersHoldNewest(maxlen, before, name);
    ChannelIsThereIff(maxlen, before, name);
    if Mentioned(before, name) {
      BufferedReadOfKnown(maxlen, before, during, name, length, expired);
    }
  }

  lemma BufferedReadOfKnown(maxlen: nat, before: seq<Event>, during: seq<Event>, name: string, length: nat, expired: bool)
    requires length > 0 && EqualLengths(before + during) && !HasClose(before + during)
    requires name in After(maxlen, before).values
    ensures var seen := if expired then before else before + during;
            var history, stamps := History(seen, name), Stamps(seen, name);
            var kept := Capped(|history|, maxlen);
            var r := ReadBuffered(After(maxlen, before), After(maxlen, before + during), name, length, expired);
            && (r.Ok? <==> expired || length <= kept) && (r.Err? ==> r.error == ValueTimeout)
            && (r.Ok? ==> r.value == Samples(LastN(history, Capped(length, kept)), LastN(stamps, Capped(length, kept))))
            && (r.Ok? ==> (|r.value.values| == length <==> length <= kept))
  {
    SplitRun(before, during);
    BuffersHoldNewest(maxlen, before, name);
    BuffersHoldNewest(maxlen, before + during, name);
    HistoryAppend(before, during, name);
    ChannelStays(maxlen, before, during, name);
    if expired {
      EqualHistories(before, name);
      BufferedInOpen(maxlen, After(maxlen, before), name, History(before, name), Stamps(before, name), length, expired);
    } else {
      EqualHistories(before + during, name);
      BufferedInOpen(maxlen, After(maxlen, before + during), name, History(before + during, name), Stamps(before + during, name),
                     length, expired);
    }
  }

  lemma BufferedInOpen(maxlen: nat, s: Store, name: string, values: seq<Value>, stamps: seq<int>, length: nat, expired: bool)
    requires length > 0 && !s.closed && name in s.values && Holds(s, maxlen, name, values, stamps) && |values| == |stamps|
    ensures var kept := Capped(|values|, maxlen);
            var r := GetBuffered(s, name, length, expired);
            && (r.Ok? <==> expired || length <= kept) && (r.Err? ==> r.error == ValueTimeout)
            && (r.Ok? ==> r.value == Samples(LastN(values, Capped(length, kept)), LastN(stamps, Capped(length, kept))))
            && (r.Ok? ==> (|r.value.values| == length <==> length <= kept))
  {
    var n := Capped(length, Capped(|values|, maxlen));
    LastNOfLastN(values, n, maxlen);
    LastNOfLastN(stamps, n, maxlen);
  }

  /** Nothing but a close removes a channel. */
  lemma {:induction false} ChannelStays(maxlen: nat, before: seq<Event>, during: seq<Event>, name: string)
    requires name in After(maxlen, before).values && !HasClose(during)
    ensures name in After(maxlen, before + during).values
  {
    if during == [] {
      assert before + during == before;
    } else {
      var k, all := |during| - 1, before + during;
      ClosedOfPrefix(during);
      ChannelStays(maxlen, before, during[..k], name);
      assert all[..|all| - 1] == before + during[..k] && all[|all| - 1] == during[k];
      ExtendAllKeeps(maxlen, After(maxlen, before + during[..k]), during[k].m.channels, during[k].m.timestamps, name);
    }
  }

  lemma {:induction false} ExtendAllKeeps(maxlen: nat, s: Store, channels: seq<ChannelData>, timestamps: seq<int>, name: string)
    requires name in s.values
    ensures name in ExtendAll(maxlen, s, channels, timestamps).values
  {
    if channels != [] {
      ExtendAllKeeps(maxlen, s, channels[..|channels| - 1], timestamps, name);
    }
  }

  /** So a read without time left is handed fewer samples than it asked for, without an error. */
  lemma ExpiredReadCanBeShort(name: string)
    ensures var events := [Publish(Measurement([ChannelData(name, [7, 8])], [1, 2]))];
            ReadBuffered(After(4, events), After(4, events + []), name, 3, true) == Ok(Samples([7, 8], [1, 2]))
  {
    var events := Once(name, [7, 8], [1, 2]);
    OnePublish(4, name, [7, 8], [1, 2]);
    assert events + [] == events;
    ChannelIsThereIff(4, events, name);
    BufferedReadReturnsNewest(4, events, [], name, 3, true);
  }
}
