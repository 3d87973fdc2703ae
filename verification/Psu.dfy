/** The simulated power supply as the program runs it: channel objects updated in place, an error
    queue, and one method for each kind of command and operator edit. */
module Psu {
  import opened Wrappers
  import opened PsuCircuit
  import opened PsuChannel
  import opened PsuMachine
  import opened ScpiCommands
  import ScpiClient

  class SimulatedPSUChannel {
    const channelId: int
    var voltageMax: real
    var currentMax: real
    var voltageSetpoint: real
    var currentLimit: real
    var ovpLevel: real
    var ovpEnabled: bool
    var ocpLevel: real
    var ocpEnabled: bool
    var remoteSense: bool
    var outputEnabled: bool
    var load: Load
    var reading: Reading
    var ovTripped: bool
    var ocTripped: bool
    var latched: bool

    ghost function State(): Channel
      reads this
    {
      Channel(channelId, voltageMax, currentMax, voltageSetpoint, currentLimit, ovpLevel, ovpEnabled, ocpLevel, ocpEnabled,
              remoteSense, outputEnabled, load, reading, ovTripped, ocTripped, latched)
    }

    constructor (id: int, load: Load)
      ensures State() == Fresh(id, load)
    {
      channelId := id;
      this.load := load;
      voltageMax, currentMax := DEFAULT_VOLTAGE_MAX, DEFAULT_CURRENT_MAX;
      voltageSetpoint, currentLimit := 0.0, 0.0;
      ovpLevel, ovpEnabled := DEFAULT_VOLTAGE_MAX, false;
      ocpLevel, ocpEnabled := DEFAULT_CURRENT_MAX, false;
      remoteSense, outputEnabled := false, false;
      reading := NOTHING;
      ovTripped, ocTripped, latched := false, false, false;
    }

    /** Clears what was observed: the readings, the trips and the latch. */
    method ClearObserved()
      modifies this`reading, this`ovTripped, this`ocTripped, this`latched
      ensures State() == old(State()).(reading := NOTHING, ovTripped := false, ocTripped := false, latched := false)
    {
      reading := NOTHING;
      ovTripped, ocTripped, latched := false, false, false;
    }

    method ClearTrips()
      modifies this`ovTripped, this`ocTripped, this`latched
      ensures State() == old(State()).(ovTripped := false, ocTripped := false, latched := false)
    {
      latched, ovTripped, ocTripped := false, false, false;
    }

    /** A protection trips: it latches the channel off. */
    method Trip(overvoltage: bool)
      modifies this
      ensures State() == Tripped(old(State()), overvoltage)
    {
      latched, outputEnabled := true, false;
      if overvoltage {
        ovTripped := true;
      } else {
        ocTripped := true;
      }
      reading := NOTHING;
    }

    method SetLimit(value: real, ofVoltage: bool)
      modifies this`voltageMax, this`currentMax
      ensures State() == if ofVoltage then old(State()).(voltageMax := value) else old(State()).(currentMax := value)
    {
      if ofVoltage {
        voltageMax := value;
      } else {
        currentMax := value;
      }
    }

    method Answer(h: Handler) returns (a: Answer)
      ensures a == Observe(State(), h)
    {
      if h == MeasureVoltage {
        a := Number(if remoteSense then reading.loadVoltage else reading.terminalVoltage);
      } else if h == MeasureCurrent {
        a := Number(reading.current);
      } else if h == QueryVoltage {
        a := Number(voltageSetpoint);
      } else if h == QueryCurrent {
        a := Number(currentLimit);
      } else if h == QueryOcpLevel {
        a := Number(ocpLevel);
      } else if h == QueryOvpLevel {
        a := Number(ovpLevel);
      } else if h == QueryOcpState {
        a := Flag(ocpEnabled);
      } else if h == QueryOvpState {
        a := Flag(ovpEnabled);
      } else if h == QueryOutput {
        a := Flag(outputEnabled);
      } else if h == QueryProtectionTripped {
        a := Flag(latched || ovTripped || ocTripped);
      } else if h == QueryRemoteSense {
        a := RemoteSense(remoteSense);
      } else {
        a := Silence;
      }
    }

    /** Back to the initial settings, keeping the limits, the load and the sense mode. */
    method Reinitialize()
      modifies this
      ensures State() == ResetChannel(old(State()))
    {
      voltageSetpoint, currentLimit := 0.0, 0.0;
      ovpLevel, ovpEnabled := voltageMax, false;
      ocpLevel, ocpEnabled := currentMax, false;
      outputEnabled := false;
      ClearObserved();
    }
  }

  ghost function Tripped(c: Channel, overvoltage: bool): Channel {
    c.(latched := true, outputEnabled := false, reading := NOTHING,
       ovTripped := c.ovTripped || overvoltage, ocTripped := c.ocTripped || !overvoltage)
  }

  predicate IsCommon(h: Handler) {
    h.GetId? || h.Reset? || h.ClearStatus? || h.GetError?
  }

  ghost predicate AllDifferent(s: seq<SimulatedPSUChannel>) {
    forall i, j :: 0 <= i < j < |s| ==> s[i] != s[j]
  }

  /** The first `i` channels settled, the others as before. */
  ghost function SettledTo(before: seq<Channel>, i: nat): (now: seq<Channel>)
    requires i <= |before|
    ensures |now| == |before|
  {
    SettleAll(before[..i]) + before[i..]
  }

  lemma SettledOneMore(before: seq<Channel>, i: nat)
    requires i < |before|
    ensures SettledTo(before, i)[i] == before[i]
    ensures SettledTo(before, i)[i := Settle(before[i]).channel] == SettledTo(before, i + 1)
  {}

  /** The channels and errors once the first `i` channels have been updated. */
  ghost function UpdatedTo(s: PsuState, i: nat): PsuState
    requires i <= |s.channels|
  {
    PsuState(SettledTo(s.channels, i), s.errors + Reports(s.channels[..i]))
  }

  lemma UpdatedEnds(s: PsuState)
    ensures UpdatedTo(s, 0) == s && UpdatedTo(s, |s.channels|) == Updated(s)
  {
    assert s.channels[..|s.channels|] == s.channels && s.errors + [] == s.errors;
  }

  lemma UpdatedOneMore(s: PsuState, i: nat)
    requires i < |s.channels|
    ensures var now, update := UpdatedTo(s, i), Settle(s.channels[i]);
            && now.channels[i] == s.channels[i]
            && PsuState(now.channels[i := update.channel], now.errors + update.errors) == UpdatedTo(s, i + 1)
  {
    SettledOneMore(s.channels, i);
    assert s.channels[..i + 1][..i] == s.channels[..i];
  }

  class SimulatedPSU {
    const float: FloatParser
    var channels: seq<SimulatedPSUChannel>
    var errors: seq<ScpiError>

    ghost predicate Distinct()
      reads this
    {
      AllDifferent(channels)
    }

    ghost function States(): (r: seq<Channel>)
      reads this, channels
      ensures |r| == |channels|
      ensures forall i :: 0 <= i < |r| ==> r[i] == channels[i].State()
    {
      seq(|channels|, i requires 0 <= i < |channels| reads this, channels => channels[i].State())
    }

    ghost function State(): PsuState
      reads this, channels
    {
      PsuState(States(), errors)
    }

    constructor (float: FloatParser, count: nat)
      ensures Distinct() && State() == Start(count) && fresh(channels)
    {
      this.float := float;
      channels, errors := [], [];
      new;
      for i := 0 to count
        invariant |channels| == i && errors == [] && Distinct() && fresh(channels)
        invariant forall j :: 0 <= j < i ==> channels[j].State() == Fresh(j + 1, DEFAULT_LOAD)
      {
        var ch := new SimulatedPSUChannel(i + 1, DEFAULT_LOAD);
        channels := channels + [ch];
      }
    }

    // ---- Physics ----

    method UpdateChannel(ch: SimulatedPSUChannel)
      modifies ch, this`errors
      ensures ch.State() == Settle(old(ch.State())).channel
      ensures errors == old(errors) + Settle(old(ch.State())).errors
    {
      if !ch.outputEnabled || ch.latched {
        ch.reading := NOTHING;
        return;
      }
      var circuit := Circuit(ch.voltageSetpoint, ch.currentLimit, ch.remoteSense, ch.load);
      ch.reading := Drive(circuit);
      if ch.ovpEnabled && SensedVoltage(circuit, ch.reading) > ch.ovpLevel {
        ch.Trip(true);
        errors := errors + [OvervoltageProtectionTripped];
        return;
      }
      if ch.ocpEnabled && Abs(ch.reading.current) > ch.ocpLevel {
        ch.Trip(false);
        errors := errors + [OvercurrentProtectionTripped];
      }
    }

    method UpdateAt(i: nat)
      requires Distinct() && i < |channels|
      modifies this`errors, channels[i]
      ensures States() == old(States())[i := Settle(old(States())[i]).channel] && channels == old(channels)
      ensures errors == old(errors) + Settle(old(States())[i]).errors
    {
      UpdateChannel(channels[i]);
      OneChannelSet(old(States()), States(), i, channels[i].State());
    }

    method UpdateNext(ghost before: PsuState, i: nat)
      requires Distinct() && i < |channels| == |before.channels| && State() == UpdatedTo(before, i)
      modifies this`errors, channels
      ensures State() == UpdatedTo(before, i + 1) && channels == old(channels)
    {
      UpdatedOneMore(before, i);
      UpdateAt(i);
    }

    method Update()
      requires Distinct()
      modifies this`errors, channels
      ensures State() == Updated(old(State())) && channels == old(channels)
    {
      ghost var before := State();
      ghost var now := before;
      UpdatedEnds(before);
      for i := 0 to |channels|
        invariant channels == old(channels) && |before.channels| == |channels|
        invariant State() == now && now == UpdatedTo(before, i)
      {
        UpdateNext(before, i);
        now := UpdatedTo(before, i + 1);
      }
    }

    // ---- Lookup ----

    method Find(id: int) returns (found: Option<nat>)
      ensures found == FindChannel(States(), id)
    {
      for i := 0 to |channels|
        invariant forall j :: 0 <= j < i ==> channels[j].channelId != id
      {
        if channels[i].channelId == id {
          FindFirst(States(), id, i);
          return Some(i);
        }
      }
      assert forall j :: 0 <= j < |channels| ==> States()[j].channelId == channels[j].channelId;
      return None;
    }

    method RequireChannel(id: int) returns (found: Option<nat>)
      modifies this`errors
      ensures found == FindChannel(old(States()), id)
      ensures found.Some? ==> errors == old(errors)
      ensures found.None? ==> errors == old(errors) + [HeaderSuffixOutOfRange]
    {
      found := Find(id);
      if found.None? {
        errors := errors + [HeaderSuffixOutOfRange];
      }
    }

    method PushError(e: ScpiError)
      modifies this`errors
      ensures errors == old(errors) + [e]
    {
      errors := errors + [e];
    }

    // ---- Setters: each reads its argument and changes the channel, or names the error ----

    method ApplyVoltage(ch: SimulatedPSUChannel, token: string) returns (error: Option<ScpiError>)
      modifies ch
      ensures Applied(float, SetVoltage, old(ch.State()), token, ch.State(), error)
    {
      var voltage := ParseRanged(float, token, CHANNEL_MIN, ch.voltageMax);
      if voltage.Err? {
        return Some(voltage.error);
      }
      if voltage.value > ch.ovpLevel {
        return Some(PvAboveOvp);
      }
      ch.voltageSetpoint := voltage.value;
      error := None;
    }

    method ApplyCurrent(ch: SimulatedPSUChannel, token: string) returns (error: Option<ScpiError>)
      modifies ch
      ensures Applied(float, SetCurrent, old(ch.State()), token, ch.State(), error)
    {
      var limit := ParseRanged(float, token, CHANNEL_MIN, ch.currentMax);
      if limit.Err? {
        return Some(limit.error);
      }
      if limit.value > ch.ocpLevel {
        return Some(PcAboveOcp);
      }
      ch.currentLimit := limit.value;
      error := None;
    }

    method ApplyOcpLevel(ch: SimulatedPSUChannel, token: string) returns (error: Option<ScpiError>)
      modifies ch
      ensures Applied(float, SetOcpLevel, old(ch.State()), token, ch.State(), error)
    {
      var level := ParseRanged(float, token, PROTECTION_MIN, ch.currentMax);
      if level.Err? {
        return Some(level.error);
      }
      if level.value < ch.currentLimit {
        return Some(OcpBelowPc);
      }
      ch.ocpLevel := level.value;
      error := None;
    }

    method ApplyOvpLevel(ch: SimulatedPSUChannel, token: string) returns (error: Option<ScpiError>)
      modifies ch
      ensures Applied(float, SetOvpLevel, old(ch.State()), token, ch.State(), error)
    {
      var level := ParseRanged(float, token, PROTECTION_MIN, ch.voltageMax);
      if level.Err? {
        return Some(level.error);
      }
      if level.value < ch.voltageSetpoint {
        return Some(OvpBelowPv);
      }
      ch.ovpLevel := level.value;
      error := None;
    }

    method ApplySwitch(h: Handler, ch: SimulatedPSUChannel, token: string) returns (error: Option<ScpiError>)
      requires h.SetOcpState? || h.SetOvpState? || h.SetRemoteSense?
      modifies ch
      ensures Applied(float, h, old(ch.State()), token, ch.State(), error)
    {
      var enable := if h == SetRemoteSense then ParseRemoteSense(token) else ParseBool(token);
      if enable.Err? {
        return Some(enable.error);
      }
      if h == SetOcpState {
        ch.ocpEnabled := enable.value;
      } else if h == SetOvpState {
        ch.ovpEnabled := enable.value;
      } else {
        ch.remoteSense := enable.value;
      }
      error := None;
    }

    method ApplyOutput(ch: SimulatedPSUChannel, token: string) returns (error: Option<ScpiError>)
      modifies ch
      ensures Applied(float, SetOutput, old(ch.State()), token, ch.State(), error)
    {
      var enable := ParseBool(token);
      if enable.Err? {
        return Some(enable.error);
      }
      if enable.value {
        ch.ClearTrips();
      }
      ch.outputEnabled := enable.value;
      error := None;
    }

    method ApplySetter(h: Handler, ch: SimulatedPSUChannel, token: string) returns (error: Option<ScpiError>)
      requires IsSetter(h)
      modifies ch
      ensures Applied(float, h, old(ch.State()), token, ch.State(), error)
    {
      if h == SetVoltage {
        error := ApplyVoltage(ch, token);
      } else if h == SetCurrent {
        error := ApplyCurrent(ch, token);
      } else if h == SetOcpLevel {
        error := ApplyOcpLevel(ch, token);
      } else if h == SetOvpLevel {
        error := ApplyOvpLevel(ch, token);
      } else if h == SetOutput {
        error := ApplyOutput(ch, token);
      } else {
        error := ApplySwitch(h, ch, token);
      }
    }

    method Set(h: Handler, channel: int, args: seq<string>)
      requires Distinct() && IsSetter(h)
      modifies this`errors, channels
      ensures State() == ExecSetter(float, old(State()), h, channel, args) && channels == old(channels)
    {
      var found := RequireChannel(channel);
      if found.None? {
        return;
      }
      if args == [] {
        PushError(MissingParameter);
        return;
      }
      var ch := channels[found.value];
      var error := ApplySetter(h, ch, args[0]);
      OneChannelSet(old(States()), States(), found.value, ch.State());
      if error.Some? {
        PushError(error.value);
        return;
      }
      Update();
    }

    lemma OneChannelSet(before: seq<Channel>, after: seq<Channel>, i: nat, c: Channel)
      requires |before| == |after| && i < |before| && after[i] == c
      requires forall j :: 0 <= j < |before| && j != i ==> after[j] == before[j]
      ensures after == before[i := c]
    {}

    // ---- Commands ----

    method ClearLatch(channel: int)
      requires Distinct()
      modifies this`errors, channels
      ensures State() == ExecClearLatch(old(State()), channel) && channels == old(channels)
    {
      var found := RequireChannel(channel);
      if found.None? {
        return;
      }
      var ch := channels[found.value];
      ch.ClearTrips();
      OneChannelSet(old(States()), States(), found.value, ch.State());
      Update();
    }

    method ResetChannels()
      requires Distinct()
      modifies this`errors, channels
      ensures State() == ResetAll(old(State())) && channels == old(channels)
    {
      ghost var before := States();
      for i := 0 to |channels|
        invariant channels == old(channels)
        invariant forall j :: 0 <= j < i ==> channels[j].State() == ResetChannel(before[j])
        invariant forall j :: i <= j < |channels| ==> channels[j].State() == before[j]
      {
        channels[i].Reinitialize();
      }
      errors := [];
      assert States() == ResetAll(old(State())).channels;
    }

    method Query(h: Handler, channel: int) returns (a: Answer)
      modifies this`errors
      ensures State() == PsuMachine.RequireChannel(old(State()), channel)
      ensures a == AnswerOn(old(State()), h, channel)
    {
      var found := RequireChannel(channel);
      if found.None? {
        return Nothing(h);
      }
      a := channels[found.value].Answer(h);
    }

    method Measure(h: Handler, channel: int) returns (a: Answer)
      requires Distinct()
      modifies this`errors, channels
      ensures State() == PsuMachine.RequireChannel(Updated(old(State())), channel) && channels == old(channels)
      ensures a == AnswerOn(Updated(old(State())), h, channel)
    {
      Update();
      a := Query(h, channel);
    }

    method ClearErrors()
      modifies this`errors
      ensures errors == []
    {
      errors := [];
    }

    /** The oldest error leaves the queue; an empty queue answers that there is none. */
    method PopError() returns (e: Option<ScpiError>)
      modifies this`errors
      ensures e == if old(errors) == [] then None else Some(old(errors)[0])
      ensures errors == if old(errors) == [] then [] else old(errors)[1..]
    {
      if errors == [] {
        return None;
      }
      e := Some(errors[0]);
      errors := errors[1..];
    }

    /** Commands that name no channel. */
    method ExecuteCommon(h: Handler, channel: int) returns (a: Answer)
      requires Distinct() && IsCommon(h)
      modifies this`errors, channels
      ensures State() == ExecOther(old(State()), h, channel) && channels == old(channels)
      ensures h == GetId || h == GetError ==> a == Respond(old(State()), h, channel)
      ensures h == Reset || h == ClearStatus ==> a == Silence
    {
      a := Silence;
      if h == GetId {
        a := Identity;
      } else if h == Reset {
        ResetChannels();
      } else if h == ClearStatus {
        ClearErrors();
      } else {
        var e := PopError();
        a := ErrorReport(e);
      }
    }

    method ExecuteOther(h: Handler, channel: int) returns (a: Answer)
      requires Distinct() && !IsSetter(h)
      modifies this`errors, channels
      ensures State() == ExecOther(old(State()), h, channel) && channels == old(channels)
      ensures a == Respond(old(State()), h, channel)
    {
      if IsCommon(h) {
        a := ExecuteCommon(h, channel);
        SilentHandlers(old(State()), h, channel);
      } else if h == MeasureVoltage || h == MeasureCurrent {
        a := Measure(h, channel);
      } else if h == ClearProtectionLatch {
        ClearLatch(channel);
        SilentHandlers(old(State()), h, channel);
        a := Silence;
      } else {
        a := Query(h, channel);
      }
    }

    method Execute(h: Handler, channel: int, args: seq<string>) returns (a: Answer)
      requires Distinct()
      modifies this`errors, channels
      ensures State() == Exec(float, old(State()), h, channel, args) && channels == old(channels)
      ensures a == Respond(old(State()), h, channel)
    {
      if IsSetter(h) {
        Set(h, channel, args);
        SilentHandlers(old(State()), h, channel);
        a := Silence;
      } else {
        a := ExecuteOther(h, channel);
      }
    }

    method Process(line: string) returns (a: Answer)
      requires Distinct()
      modifies this`errors, channels
      ensures State() == ProcessLine(float, old(State()), line) && channels == old(channels)
      ensures a == AnswerLine(old(State()), line)
    {
      a := Silence;
      var dispatched := ScpiClient.Dispatch(line);
      match dispatched {
        case Ignored =>
        case Refused(e) =>
          PushError(if e.UndefinedHeader? then PsuChannel.UndefinedHeader else PsuChannel.ParameterNotAllowed);
        case Call(h, channel, args) => a := Execute(h, channel, args);
      }
    }

    // ---- Operator edits ----

    method SetLoad(id: int, load: Load)
      requires Distinct()
      modifies this`errors, channels
      ensures State() == ApplyEdit(old(State()), EditLoad(id, load)) && channels == old(channels)
    {
      var found := Find(id);
      if found.None? {
        return;
      }
      var ch := channels[found.value];
      ch.load := load;
      OneChannelSet(old(States()), States(), found.value, ch.State());
      Update();
    }

    method SetLimit(id: int, value: real, ofVoltage: bool)
      requires Distinct()
      modifies this`errors, channels
      ensures State() == ApplyEdit(old(State()), if ofVoltage then EditVoltageMax(id, value) else EditCurrentMax(id, value))
      ensures channels == old(channels)
    {
      if value < CHANNEL_MIN {
        return;
      }
      var found := Find(id);
      if found.None? {
        return;
      }
      var ch := channels[found.value];
      ch.SetLimit(value, ofVoltage);
      OneChannelSet(old(States()), States(), found.value, ch.State());
      ResetChannels();
    }

    method HighestId() returns (maxId: int)
      ensures maxId == MaxId(States())
    {
      ghost var before := States();
      maxId := 0;
      for i := 0 to |channels|
        modifies {}
        invariant maxId == MaxId(before[..i])
      {
        assert before[..i + 1][..i] == before[..i];
        if i == 0 || channels[i].channelId > maxId {
          maxId := channels[i].channelId;
        }
      }
      assert before[..|channels|] == before;
    }

    method Add()
      requires Distinct()
      modifies this`channels
      ensures Distinct() && State() == ApplyEdit(old(State()), AddChannel)
    {
      var maxId := HighestId();
      var ch := new SimulatedPSUChannel(maxId + 1, DEFAULT_LOAD);
      channels := channels + [ch];
      assert States() == old(States()) + [ch.State()];
    }

    method Remove(id: int)
      requires Distinct()
      modifies this`channels
      ensures Distinct() && State() == ApplyEdit(old(State()), RemoveChannel(id))
    {
      var kept := KeepOthers(channels, id);
      KeptStates(channels, id, States());
      KeptDifferent(channels, id);
      ghost var left := Without(States(), id);
      channels := kept;
      assert forall i :: 0 <= i < |left| ==> channels[i].State() == left[i];
      assert States() == left;
    }
  }

  function Kept(s: seq<SimulatedPSUChannel>, id: int): seq<SimulatedPSUChannel> {
    if s == [] then []
    else
      var front, last := Kept(s[..|s| - 1], id), s[|s| - 1];
      if last.channelId == id then front else front + [last]
  }

  method KeepOthers(s: seq<SimulatedPSUChannel>, id: int) returns (kept: seq<SimulatedPSUChannel>)
    ensures kept == Kept(s, id)
  {
    kept := [];
    for i := 0 to |s|
      invariant kept == Kept(s[..i], id)
    {
      assert s[..i + 1][..i] == s[..i];
      if s[i].channelId != id {
        kept := kept + [s[i]];
      }
    }
    assert s[..|s|] == s;
  }

  lemma {:induction false} KeptStates(s: seq<SimulatedPSUChannel>, id: int, states: seq<Channel>)
    requires |states| == |s| && forall i :: 0 <= i < |s| ==> states[i] == s[i].State()
    ensures |Kept(s, id)| == |Without(states, id)|
    ensures forall i :: 0 <= i < |Kept(s, id)| ==> Kept(s, id)[i].State() == Without(states, id)[i]
  {
    if s != [] {
      var front := states[..|s| - 1];
      KeptStates(s[..|s| - 1], id, front);
      assert states[|s| - 1] == s[|s| - 1].State() && states[|s| - 1].channelId == s[|s| - 1].channelId;
      assert Without(states, id) ==
             if states[|s| - 1].channelId == id then Without(front, id) else Without(front, id) + [states[|s| - 1]];
    }
  }

  lemma {:induction false} KeptDifferent(s: seq<SimulatedPSUChannel>, id: int)
    requires AllDifferent(s)
    ensures AllDifferent(Kept(s, id))
    ensures forall c :: c in Kept(s, id) ==> c in s
  {
    if s != [] {
      var front, last := s[..|s| - 1], s[|s| - 1];
      KeptDifferent(front, id);
      assert s == front + [last] && last !in front;
    }
  }

  /** A setter changed the channel as specified, or named the error and changed nothing. */
  ghost predicate Applied(float: FloatParser, h: Handler, before: Channel, token: string, after: Channel, error: Option<ScpiError>)
    requires IsSetter(h)
  {
    match Apply(float, h, before, token)
    case Err(e) => error == Some(e) && after == before
    case Ok(c) => error == None && after == c
  }
}
