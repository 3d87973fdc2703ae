/** What the simulated supply answers in every reachable state: measured voltage and current obey
    the circuit, every channel has its own id, and the trip query tells of trips not yet cleared. */
module PsuReadings {
  import opened Wrappers
  import opened PsuCircuit
  import opened PsuChannel
  import opened ScpiCommands
  import opened PsuMachine
  import opened PsuTrips
  import ScpiClient

  // ---- Measurements ----

  /** Voltage `v` and current `i` are what a channel with these settings delivers. The law leaves
      one possibility: the leads count unless they are sensed past, and the supply holds its
      setpoint or its current limit. */
  predicate Delivers(c: Channel, v: real, i: real) {
    if !c.outputEnabled then v == 0.0 && i == 0.0
    else
      match c.load.resistance
      case OpenCircuit => v == c.voltageSetpoint && i == 0.0
      case Ohms(load) =>
        var r := load + if c.remoteSense then 0.0 else c.load.probeResistance;
        && v == i * r + c.load.emf && i <= c.currentLimit
        && (r > 0.0 ==> v <= c.voltageSetpoint && (v == c.voltageSetpoint || i == c.currentLimit))
        && (r < 0.0 ==> if c.currentLimit * r + c.load.emf <= c.voltageSetpoint then v == c.voltageSetpoint else i == c.currentLimit)
        && (r == 0.0 ==> i == if c.voltageSetpoint == c.load.emf then 0.0 else c.currentLimit)
  }

  lemma DrivenDelivers(c: Channel)
    requires InLimits(c) && c.outputEnabled
    ensures var circuit := CircuitOf(c);
            Delivers(c, SensedVoltage(circuit, Drive(circuit)), Drive(circuit).current)
  {
    var circuit := CircuitOf(c);
    match c.load.resistance
    case OpenCircuit => OpenCircuitIsConstantVoltage(circuit);
    case Ohms(load) =>
      DrivenCircuitObeysOhm(circuit);
      var r := TotalResistance(circuit).ohms;
      if r > 0.0 {
        SensedVoltageAtMostSetpoint(circuit);
      } else if r < 0.0 {
        NegativeResistance(circuit);
      } else {
        NoResistance(circuit);
      }
  }

  lemma GoodChannelDelivers(c: Channel)
    requires GoodChannel(c)
    ensures Delivers(c, Sensed(c), c.reading.current)
  {
    SettledMeansSafe(c);
    if c.outputEnabled {
      DrivenDelivers(c);
    }
  }

  lemma MeasuresTheReading(s: PsuState, channel: int)
    requires Updated(s) == s && FindChannel(s.channels, channel).Some?
    ensures var c := s.channels[FindChannel(s.channels, channel).value];
            && Respond(s, MeasureVoltage, channel) == Number(Sensed(c))
            && Respond(s, MeasureCurrent, channel) == Number(c.reading.current)
  {}

  lemma MeasuredInGood(s: PsuState, channel: int)
    requires Good(s) && FindChannel(s.channels, channel).Some?
    ensures exists v, i ::
              && Respond(s, MeasureVoltage, channel) == Number(v) && Respond(s, MeasureCurrent, channel) == Number(i)
              && Delivers(s.channels[FindChannel(s.channels, channel).value], v, i)
  {
    var c := s.channels[FindChannel(s.channels, channel).value];
    UpdateDisturbsNothing(s);
    MeasuresTheReading(s, channel);
    assert GoodChannel(c);
    GoodChannelDelivers(c);
  }

  /** At every point of every run, the two measurements of a channel obey its circuit. */
  lemma MeasurementsObeyTheCircuit(float: FloatParser, count: nat, actions: seq<Action>, channel: int)
    ensures var s := RunTo(float, Start(count), actions);
            FindChannel(s.channels, channel).Some? ==>
              exists v, i ::
                && Respond(s, MeasureVoltage, channel) == Number(v) && Respond(s, MeasureCurrent, channel) == Number(i)
                && Delivers(s.channels[FindChannel(s.channels, channel).value], v, i)
  {
    var s := RunTo(float, Start(count), actions);
    RunKeepsGood(float, count, actions);
    if FindChannel(s.channels, channel).Some? {
      MeasuredInGood(s, channel);
    }
  }

  // ---- Channel ids ----

  ghost predicate DistinctIds(channels: seq<Channel>) {
    forall i, j :: 0 <= i < j < |channels| ==> channels[i].channelId != channels[j].channelId
  }

  predicate SameIds(a: seq<Channel>, b: seq<Channel>) {
    |a| == |b| && forall i :: 0 <= i < |a| ==> a[i].channelId == b[i].channelId
  }

  lemma {:induction false} MaxIdIsMax(channels: seq<Channel>)
    ensures forall i :: 0 <= i < |channels| ==> channels[i].channelId <= MaxId(channels)
  {
    if channels != [] {
      var front := channels[..|channels| - 1];
      MaxIdIsMax(front);
      assert forall i :: 0 <= i < |front| ==> channels[i] == front[i];
    }
  }

  lemma {:induction false} WithoutExactly(channels: seq<Channel>, id: int)
    ensures forall c :: c in Without(channels, id) <==> c in channels && c.channelId != id
    ensures DistinctIds(channels) ==> DistinctIds(Without(channels, id))
  {
    if channels != [] {
      var front, last := channels[..|channels| - 1], channels[|channels| - 1];
      WithoutExactly(front, id);
      assert channels == front + [last];
      assert forall i :: 0 <= i < |Without(front, id)| ==> Without(front, id)[i] in front;
    }
  }

  lemma SettledIds(s: PsuState)
    ensures SameIds(s.channels, Updated(s).channels)
  {
    UpdateKeepsIds(s);
  }

  lemma ChangeKeepsIds(s: PsuState, i: nat, c: Channel)
    requires i < |s.channels| && c.channelId == s.channels[i].channelId
    ensures SameIds(s.channels, Updated(ChangeAt(s, i, c)).channels)
  {
    SettledIds(ChangeAt(s, i, c));
  }

  lemma SetterKeepsIds(float: FloatParser, s: PsuState, h: Handler, channel: int, args: seq<string>)
    requires IsSetter(h)
    ensures SameIds(s.channels, ExecSetter(float, s, h, channel, args).channels)
  {
    var found := FindChannel(s.channels, channel);
    if found.Some? && args != [] && Apply(float, h, s.channels[found.value], args[0]).Ok? {
      ApplyKeepsId(float, h, s.channels[found.value], args[0]);
      ChangeKeepsIds(s, found.value, Apply(float, h, s.channels[found.value], args[0]).value);
    }
  }

  lemma ClearLatchKeepsIds(s: PsuState, channel: int)
    ensures SameIds(s.channels, ExecClearLatch(s, channel).channels)
  {
    var found := FindChannel(s.channels, channel);
    if found.Some? {
      ChangeKeepsIds(s, found.value, ClearTrips(s.channels[found.value]));
    }
  }

  lemma ResetKeepsIds(s: PsuState, changed: PsuState)
    requires SameIds(s.channels, changed.channels)
    ensures SameIds(s.channels, ResetAll(changed).channels)
  {}

  lemma OtherKeepsIds(s: PsuState, h: Handler, channel: int)
    ensures SameIds(s.channels, ExecOther(s, h, channel).channels)
  {
    match h
    case ClearProtectionLatch => ClearLatchKeepsIds(s, channel);
    case Reset => ResetKeepsIds(s, s);
    case MeasureVoltage => SettledIds(s);
    case MeasureCurrent => SettledIds(s);
    case _ =>
  }

  lemma ExecKeepsIds(float: FloatParser, s: PsuState, h: Handler, channel: int, args: seq<string>)
    ensures SameIds(s.channels, Exec(float, s, h, channel, args).channels)
  {
    if IsSetter(h) {
      SetterKeepsIds(float, s, h, channel, args);
    } else {
      OtherKeepsIds(s, h, channel);
    }
  }

  lemma LimitEditKeepsIds(s: PsuState, id: int, value: real)
    ensures SameIds(s.channels, ApplyEdit(s, EditVoltageMax(id, value)).channels)
    ensures SameIds(s.channels, ApplyEdit(s, EditCurrentMax(id, value)).channels)
  {
    var found := FindChannel(s.channels, id);
    if found.Some? {
      ResetKeepsIds(s, ChangeAt(s, found.value, s.channels[found.value].(voltageMax := value)));
      ResetKeepsIds(s, ChangeAt(s, found.value, s.channels[found.value].(currentMax := value)));
    }
  }

  lemma LoadEditKeepsIds(s: PsuState, id: int, load: Load)
    ensures SameIds(s.channels, ApplyEdit(s, EditLoad(id, load)).channels)
  {
    var found := FindChannel(s.channels, id);
    if found.Some? {
      ChangeKeepsIds(s, found.value, s.channels[found.value].(load := load));
    }
  }

  lemma SameIdsAreDistinct(a: seq<Channel>, b: seq<Channel>)
    requires SameIds(a, b) && DistinctIds(a)
    ensures DistinctIds(b)
  {}

  lemma EditKeepsIds(s: PsuState, e: Edit)
    requires DistinctIds(s.channels)
    ensures DistinctIds(ApplyEdit(s, e).channels)
  {
    match e
    case AddChannel => MaxIdIsMax(s.channels);
    case RemoveChannel(id) => WithoutExactly(s.channels, id);
    case Refresh =>
      SettledIds(s);
      SameIdsAreDistinct(s.channels, ApplyEdit(s, e).channels);
    case EditLoad(id, load) =>
      LoadEditKeepsIds(s, id, load);
      SameIdsAreDistinct(s.channels, ApplyEdit(s, e).channels);
    case EditVoltageMax(id, value) =>
      LimitEditKeepsIds(s, id, value);
      SameIdsAreDistinct(s.channels, ApplyEdit(s, e).channels);
    case EditCurrentMax(id, value) =>
      LimitEditKeepsIds(s, id, value);
      SameIdsAreDistinct(s.channels, ApplyEdit(s, e).channels);
  }

  /** In every run no two channels have the same id, so a header names at most one of them. */
  lemma {:induction false} RunKeepsIdsDistinct(float: FloatParser, count: nat, actions: seq<Action>)
    ensures DistinctIds(RunTo(float, Start(count), actions).channels)
  {
    if actions != [] {
      var k := |actions| - 1;
      var s := RunTo(float, Start(count), actions[..k]);
      RunKeepsIdsDistinct(float, count, actions[..k]);
      match actions[k]
      case Operator(e) => EditKeepsIds(s, e);
      case Line(text) =>
        var d := ScpiClient.Dispatch(text);
        if d.Call? {
          ExecKeepsIds(float, s, d.handler, d.channel, d.args);
        }
        SameIdsAreDistinct(s.channels, Step(float, s, Line(text)).channels);
    }
  }

  /** Adding and removing: the new channel has an id above all others; a removal takes away exactly
      the channels with its id. */
  lemma AddAndRemove(s: PsuState, id: int, c: Channel)
    ensures var added := ApplyEdit(s, AddChannel).channels;
            && |added| == |s.channels| + 1 && added[..|s.channels|] == s.channels
            && forall i :: 0 <= i < |s.channels| ==> added[i].channelId < added[|s.channels|].channelId
    ensures c in ApplyEdit(s, RemoveChannel(id)).channels <==> c in s.channels && c.channelId != id
  {
    MaxIdIsMax(s.channels);
    WithoutExactly(s.channels, id);
  }

  // ---- The trip query ----

  /** The action changes channel `id` so that it trips. */
  predicate TripsNow(float: FloatParser, s: PsuState, a: Action, id: int) {
    var change := ChangeOf(float, s, a);
    change.Some? && change.value.channel.channelId == id && OwnReport(change.value.channel) != []
  }

  /** The action clears the trip of channel `id`: by resetting the supply, by clearing its latch, or
      by switching its output on. */
  predicate Clears(s: PsuState, a: Action, id: int) {
    match a
    case Operator(EditVoltageMax(edited, value)) => FindChannel(s.channels, edited).Some? && value >= 0.0
    case Operator(EditCurrentMax(edited, value)) => FindChannel(s.channels, edited).Some? && value >= 0.0
    case Operator(_) => false
    case Line(text) =>
      match ScpiClient.Dispatch(text)
      case Call(h, channel, args) =>
        h == Reset || (channel == id && (h == ClearProtectionLatch || (h == SetOutput && args != [] && SaysOn(args[0]))))
      case _ => false
  }

  /** What the trip query answers for channel `id`, while it is there. */
  function TripFlag(s: PsuState, id: int): Option<bool> {
    match FindChannel(s.channels, id)
    case None => None
    case Some(i) => Some(Tripped(s.channels[i]))
  }

  lemma FlagIsAnswered(s: PsuState, id: int)
    requires Good(s) && TripFlag(s, id).Some?
    ensures Respond(s, QueryProtectionTripped, id) == Flag(TripFlag(s, id).value)
  {
    assert GoodChannel(s.channels[FindChannel(s.channels, id).value]);
  }

  lemma SettleFlag(c: Channel)
    requires InLimits(c) && LatchConsistent(c)
    ensures Tripped(Settle(c).channel) <==> Tripped(c) || OwnReport(c) != []
  {
    OwnReportIsExact(c);
  }

  lemma FoundAt(channels: seq<Channel>, i: nat)
    requires i < |channels| && DistinctIds(channels)
    ensures FindChannel(channels, channels[i].channelId) == Some(i)
  {
    FindFirst(channels, channels[i].channelId, i);
  }

  lemma FlagOf(s: PsuState, i: nat)
    requires i < |s.channels| && DistinctIds(s.channels)
    ensures TripFlag(s, s.channels[i].channelId) == Some(Tripped(s.channels[i]))
  {
    FoundAt(s.channels, i);
  }

  /** A change of one channel followed by an update changes only that channel's flag. */
  lemma FlagAfterChange(s: PsuState, t: PsuState, i: nat, c: Channel, id: int)
    requires Good(s) && DistinctIds(s.channels) && i < |s.channels| && c.channelId == s.channels[i].channelId
    requires InLimits(c) && LatchConsistent(c) && t.channels == s.channels[i := Settle(c).channel]
    requires TripFlag(s, id).Some?
    ensures TripFlag(t, id) == if c.channelId == id then Some(Tripped(c) || OwnReport(c) != []) else TripFlag(s, id)
  {
    var j := FindChannel(s.channels, id).value;
    SettleKeepsSettings(c);
    SettleFlag(c);
    assert DistinctIds(t.channels);
    FlagOf(t, j);
    FlagOf(s, j);
    FlagOf(s, i);
  }

  lemma SameFlag(s: PsuState, t: PsuState, id: int)
    requires s.channels == t.channels
    ensures TripFlag(s, id) == TripFlag(t, id)
  {}

  lemma FlagAfterReset(s: PsuState, changed: PsuState, id: int)
    requires SameIds(s.channels, changed.channels) && DistinctIds(s.channels) && TripFlag(s, id).Some?
    ensures TripFlag(ResetAll(changed), id) == Some(false)
  {
    var t, j := ResetAll(changed), FindChannel(s.channels, id).value;
    assert t.channels[j].channelId == id && DistinctIds(t.channels);
    FlagOf(t, j);
  }

  /** The flag after an action, from the flag before it. */
  ghost predicate FlagLaw(float: FloatParser, s: PsuState, a: Action, t: PsuState, id: int)
    requires TripFlag(s, id).Some?
  {
    TripFlag(t, id).Some? ==>
      TripFlag(t, id) == Some(TripsNow(float, s, a, id) || (TripFlag(s, id).value && !Clears(s, a, id)))
  }

  lemma SetterFlag(float: FloatParser, h: Handler, c: Channel, token: string)
    requires IsSetter(h) && Apply(float, h, c, token).Ok?
    ensures Tripped(Apply(float, h, c, token).value) <==> Tripped(c) && !(h == SetOutput && SaysOn(token))
  {
    match h
    case SetVoltage =>
    case SetCurrent =>
    case SetOcpLevel =>
    case SetOvpLevel =>
    case SetOcpState =>
    case SetOvpState =>
    case SetOutput =>
    case SetRemoteSense =>
  }

  /** The flag law for an action that changes one channel. */
  lemma ChangeFlagLaw(float: FloatParser, s: PsuState, a: Action, t: PsuState, id: int, change: Change)
    requires Good(s) && DistinctIds(s.channels) && TripFlag(s, id).Some? && ChangeOf(float, s, a) == Some(change)
    requires var i, c := change.index, change.channel;
             && i < |s.channels| && c.channelId == s.channels[i].channelId && InLimits(c) && LatchConsistent(c)
             && t.channels == s.channels[i := Settle(c).channel]
             && (c.channelId == id ==> (Tripped(c) <==> Tripped(s.channels[i]) && !Clears(s, a, id)))
             && (c.channelId != id ==> !Clears(s, a, id))
    ensures FlagLaw(float, s, a, t, id)
  {
    FlagAfterChange(s, t, change.index, change.channel, id);
    FlagOf(s, change.index);
  }

  lemma CallIsExec(float: FloatParser, s: PsuState, text: string)
    requires ScpiClient.Dispatch(text).Call?
    ensures var d := ScpiClient.Dispatch(text);
            && Step(float, s, Line(text)) == Exec(float, s, d.handler, d.channel, d.args)
            && ChangeOf(float, s, Line(text)) == ChangeOfExec(float, s, d.handler, d.channel, d.args)
  {}

  lemma WhatALineClears(s: PsuState, text: string, id: int)
    requires ScpiClient.Dispatch(text).Call?
    ensures var d := ScpiClient.Dispatch(text);
            && (d.handler == ClearProtectionLatch ==> (Clears(s, Line(text), id) <==> d.channel == id))
            && (IsSetter(d.handler) ==>
                  (Clears(s, Line(text), id) <==>
                     d.channel == id && d.handler == SetOutput && d.args != [] && SaysOn(d.args[0])))
  {}

  lemma SetterChange(float: FloatParser, s: PsuState, h: Handler, channel: int, args: seq<string>, i: nat)
    requires Good(s) && IsSetter(h) && FindChannel(s.channels, channel) == Some(i) && args != []
    requires Apply(float, h, s.channels[i], args[0]).Ok?
    ensures var c := Apply(float, h, s.channels[i], args[0]).value;
            && ChangeOfExec(float, s, h, channel, args) == Some(Change(i, c))
            && c.channelId == s.channels[i].channelId && InLimits(c) && LatchConsistent(c)
            && Exec(float, s, h, channel, args).channels == s.channels[i := Settle(c).channel]
  {
    assert GoodChannel(s.channels[i]);
    ApplyKeepsId(float, h, s.channels[i], args[0]);
    ApplyKeepsSound(float, h, s.channels[i], args[0]);
    ChangeIsReported(s, i, Apply(float, h, s.channels[i], args[0]).value);
  }

  lemma SetterWithoutChange(float: FloatParser, s: PsuState, h: Handler, channel: int, args: seq<string>)
    requires IsSetter(h) && ChangeOfExec(float, s, h, channel, args).None?
    ensures Exec(float, s, h, channel, args).channels == s.channels
  {}

  lemma SetterFlagLaw(float: FloatParser, s: PsuState, text: string, id: int)
    requires Good(s) && DistinctIds(s.channels) && TripFlag(s, id).Some?
    requires ScpiClient.Dispatch(text).Call? && IsSetter(ScpiClient.Dispatch(text).handler)
    ensures FlagLaw(float, s, Line(text), Step(float, s, Line(text)), id)
  {
    var d := ScpiClient.Dispatch(text);
    var found := FindChannel(s.channels, d.channel);
    CallIsExec(float, s, text);
    WhatALineClears(s, text, id);
    if found.Some? && d.args != [] && Apply(float, d.handler, s.channels[found.value], d.args[0]).Ok? {
      var c := Apply(float, d.handler, s.channels[found.value], d.args[0]).value;
      SetterChange(float, s, d.handler, d.channel, d.args, found.value);
      SetterFlag(float, d.handler, s.channels[found.value], d.args[0]);
      ChangeFlagLaw(float, s, Line(text), Step(float, s, Line(text)), id, Change(found.value, c));
    } else {
      if found.Some? && d.args != [] {
        RefusedSetterSaysNothing(float, d.handler, s.channels[found.value], d.args[0]);
      }
      SetterWithoutChange(float, s, d.handler, d.channel, d.args);
      SameFlag(s, Step(float, s, Line(text)), id);
    }
  }

  lemma RefusedSetterSaysNothing(float: FloatParser, h: Handler, c: Channel, token: string)
    requires IsSetter(h) && Apply(float, h, c, token).Err?
    ensures !(h == SetOutput && SaysOn(token))
  {}

  lemma ClearLatchChange(float: FloatParser, s: PsuState, channel: int, args: seq<string>, i: nat)
    requires Good(s) && FindChannel(s.channels, channel) == Some(i)
    ensures var c := ClearTrips(s.channels[i]);
            && ChangeOfExec(float, s, ClearProtectionLatch, channel, args) == Some(Change(i, c))
            && InLimits(c) && LatchConsistent(c)
            && Exec(float, s, ClearProtectionLatch, channel, args).channels == s.channels[i := Settle(c).channel]
  {
    assert GoodChannel(s.channels[i]);
    ChangeIsReported(s, i, ClearTrips(s.channels[i]));
  }

  lemma ClearLatchFlagLaw(float: FloatParser, s: PsuState, text: string, id: int)
    requires Good(s) && DistinctIds(s.channels) && TripFlag(s, id).Some?
    requires ScpiClient.Dispatch(text).Call? && ScpiClient.Dispatch(text).handler == ClearProtectionLatch
    ensures FlagLaw(float, s, Line(text), Step(float, s, Line(text)), id)
  {
    var d := ScpiClient.Dispatch(text);
    var found := FindChannel(s.channels, d.channel);
    CallIsExec(float, s, text);
    WhatALineClears(s, text, id);
    if found.Some? {
      ClearLatchChange(float, s, d.channel, d.args, found.value);
      ChangeFlagLaw(float, s, Line(text), Step(float, s, Line(text)), id, Change(found.value, ClearTrips(s.channels[found.value])));
    } else {
      SameFlag(s, Step(float, s, Line(text)), id);
    }
  }

  lemma QuietHandler(s: PsuState, h: Handler, channel: int)
    requires Good(s) && !IsSetter(h) && h != ClearProtectionLatch && h != Reset
    ensures ExecOther(s, h, channel).channels == s.channels
  {
    UpdateDisturbsNothing(s);
  }

  lemma QuietLine(float: FloatParser, s: PsuState, text: string)
    requires Good(s)
    requires var d := ScpiClient.Dispatch(text); d.Call? ==> !IsSetter(d.handler) && d.handler != ClearProtectionLatch && d.handler != Reset
    ensures ProcessLine(float, s, text).channels == s.channels
  {
    var d := ScpiClient.Dispatch(text);
    if d.Call? {
      QuietHandler(s, d.handler, d.channel);
    }
  }

  lemma NoChange(float: FloatParser, s: PsuState, text: string, id: int)
    requires var d := ScpiClient.Dispatch(text); d.Call? ==> !IsSetter(d.handler) && d.handler != ClearProtectionLatch
    ensures !TripsNow(float, s, Line(text), id)
    ensures Clears(s, Line(text), id) <==> ScpiClient.Dispatch(text).Call? && ScpiClient.Dispatch(text).handler == Reset
  {}

  lemma OtherLineFlagLaw(float: FloatParser, s: PsuState, text: string, id: int)
    requires Good(s) && DistinctIds(s.channels) && TripFlag(s, id).Some?
    requires var d := ScpiClient.Dispatch(text); d.Call? ==> !IsSetter(d.handler) && d.handler != ClearProtectionLatch
    ensures FlagLaw(float, s, Line(text), Step(float, s, Line(text)), id)
  {
    var d := ScpiClient.Dispatch(text);
    NoChange(float, s, text, id);
    if d.Call? && d.handler == Reset {
      FlagAfterReset(s, s, id);
    } else {
      QuietLine(float, s, text);
      SameFlag(s, ProcessLine(float, s, text), id);
    }
  }

  lemma {:induction false} FindAppended(channels: seq<Channel>, last: Channel, id: int)
    requires FindChannel(channels, id).Some?
    ensures FindChannel(channels + [last], id) == FindChannel(channels, id)
  {
    if channels[0].channelId != id {
      FindAppended(channels[1..], last, id);
      assert (channels + [last])[1..] == channels[1..] + [last];
    }
  }

  lemma FlagOfKept(s: PsuState, t: PsuState, id: int)
    requires DistinctIds(s.channels) && TripFlag(s, id).Some? && TripFlag(t, id).Some?
    requires forall c :: c in t.channels ==> c in s.channels
    ensures TripFlag(t, id) == TripFlag(s, id)
  {
    var j := FindChannel(t.channels, id).value;
    assert t.channels[j] in t.channels;
    var i :| 0 <= i < |s.channels| && s.channels[i] == t.channels[j];
    FlagOf(s, i);
  }

  lemma EditFlagLaw(float: FloatParser, s: PsuState, e: Edit, id: int)
    requires Good(s) && DistinctIds(s.channels) && TripFlag(s, id).Some?
    ensures FlagLaw(float, s, Operator(e), Step(float, s, Operator(e)), id)
  {
    var t := Step(float, s, Operator(e));
    match e
    case Refresh => UpdateDisturbsNothing(s);
    case AddChannel => FindAppended(s.channels, Fresh(MaxId(s.channels) + 1, DEFAULT_LOAD), id);
    case RemoveChannel(removed) =>
      WithoutExactly(s.channels, removed);
      if TripFlag(t, id).Some? {
        FlagOfKept(s, t, id);
      }
    case EditLoad(edited, load) => LoadEditFlagLaw(float, s, edited, load, id);
    case EditVoltageMax(edited, value) => VoltageMaxFlagLaw(float, s, edited, value, id);
    case EditCurrentMax(edited, value) => CurrentMaxFlagLaw(float, s, edited, value, id);
  }

  lemma LoadEditFlagLaw(float: FloatParser, s: PsuState, edited: int, load: Load, id: int)
    requires Good(s) && DistinctIds(s.channels) && TripFlag(s, id).Some?
    ensures FlagLaw(float, s, Operator(EditLoad(edited, load)), ApplyEdit(s, EditLoad(edited, load)), id)
  {
    var found := FindChannel(s.channels, edited);
    if found.Some? {
      var c := s.channels[found.value].(load := load);
      assert GoodChannel(s.channels[found.value]);
      ChangeIsReported(s, found.value, c);
      ChangeFlagLaw(float, s, Operator(EditLoad(edited, load)), ApplyEdit(s, EditLoad(edited, load)), id, Change(found.value, c));
    }
  }

  lemma ResetFlagLaw(float: FloatParser, s: PsuState, a: Action, changed: PsuState, id: int)
    requires ChangeOf(float, s, a).None? && Clears(s, a, id)
    requires SameIds(s.channels, changed.channels) && DistinctIds(s.channels) && TripFlag(s, id).Some?
    ensures FlagLaw(float, s, a, ResetAll(changed), id)
  {
    FlagAfterReset(s, changed, id);
  }

  lemma IdleFlagLaw(float: FloatParser, s: PsuState, a: Action, id: int)
    requires ChangeOf(float, s, a).None? && !Clears(s, a, id) && TripFlag(s, id).Some?
    ensures FlagLaw(float, s, a, s, id)
  {}

  lemma VoltageMaxFlagLaw(float: FloatParser, s: PsuState, edited: int, value: real, id: int)
    requires DistinctIds(s.channels) && TripFlag(s, id).Some?
    ensures FlagLaw(float, s, Operator(EditVoltageMax(edited, value)), ApplyEdit(s, EditVoltageMax(edited, value)), id)
  {
    var found, a := FindChannel(s.channels, edited), Operator(EditVoltageMax(edited, value));
    if found.Some? && value >= 0.0 {
      ResetFlagLaw(float, s, a, ChangeAt(s, found.value, s.channels[found.value].(voltageMax := value)), id);
    } else {
      IdleFlagLaw(float, s, a, id);
    }
  }

  lemma CurrentMaxFlagLaw(float: FloatParser, s: PsuState, edited: int, value: real, id: int)
    requires DistinctIds(s.channels) && TripFlag(s, id).Some?
    ensures FlagLaw(float, s, Operator(EditCurrentMax(edited, value)), ApplyEdit(s, EditCurrentMax(edited, value)), id)
  {
    var found, a := FindChannel(s.channels, edited), Operator(EditCurrentMax(edited, value));
    if found.Some? && value >= 0.0 {
      ResetFlagLaw(float, s, a, ChangeAt(s, found.value, s.channels[found.value].(currentMax := value)), id);
    } else {
      IdleFlagLaw(float, s, a, id);
    }
  }

  lemma StepFlagLaw(float: FloatParser, s: PsuState, a: Action, id: int)
    requires Good(s) && DistinctIds(s.channels) && TripFlag(s, id).Some?
    ensures FlagLaw(float, s, a, Step(float, s, a), id)
  {
    match a
    case Operator(e) => EditFlagLaw(float, s, e, id);
    case Line(text) =>
      var d := ScpiClient.Dispatch(text);
      if d.Call? && IsSetter(d.handler) {
        SetterFlagLaw(float, s, text, id);
      } else if d.Call? && d.handler == ClearProtectionLatch {
        ClearLatchFlagLaw(float, s, text, id);
      } else {
        OtherLineFlagLaw(float, s, text, id);
      }
  }

  /** At every point of every run the trip query of a channel answers whether it has tripped and not
      been cleared since: after any further action it answers yes exactly when the action trips
      the channel, or it answered yes before and the action does not clear it. */
  lemma TripQueryTellsOfTrips(float: FloatParser, count: nat, actions: seq<Action>, a: Action, id: int)
    ensures var s := RunTo(float, Start(count), actions);
            var t := Step(float, s, a);
            FindChannel(s.channels, id).Some? && FindChannel(t.channels, id).Some? ==>
              Respond(t, QueryProtectionTripped, id) ==
              Flag(TripsNow(float, s, a, id) || (Respond(s, QueryProtectionTripped, id) == Flag(true) && !Clears(s, a, id)))
  {
    var s := RunTo(float, Start(count), actions);
    var t := Step(float, s, a);
    RunKeepsGood(float, count, actions);
    RunKeepsIdsDistinct(float, count, actions);
    if TripFlag(s, id).Some? && TripFlag(t, id).Some? {
      StepFlagLaw(float, s, a, id);
      FlagIsAnswered(s, id);
      StepKeepsGood(float, s, a);
      FlagIsAnswered(t, id);
    }
  }

  lemma StepKeepsGood(float: FloatParser, s: PsuState, a: Action)
    requires Good(s)
    ensures Good(Step(float, s, a))
  {
    match a
    case Operator(e) => EditKeepsGood(s, e);
    case Line(text) =>
      var d := ScpiClient.Dispatch(text);
      if d.Call? {
        ExecKeepsGood(float, s, d.handler, d.channel, d.args);
      }
  }

  /** A channel that has just been added has not tripped. */
  lemma AddedHasNotTripped(s: PsuState, id: int)
    requires FindChannel(s.channels, id).None? && TripFlag(ApplyEdit(s, AddChannel), id).Some?
    ensures TripFlag(ApplyEdit(s, AddChannel), id) == Some(false)
  {
    var t := ApplyEdit(s, AddChannel);
    var j := FindChannel(t.channels, id).value;
    assert forall k :: 0 <= k < |s.channels| ==> s.channels[k] in s.channels && t.channels[k] == s.channels[k];
    assert t.channels[j].channelId == id;
  }
}
