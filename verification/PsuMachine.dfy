/** The simulated power supply as a state machine: what each command and each operator edit
    makes of the channels and of the error queue. */
module PsuMachine {
  import opened Wrappers
  import opened Text
  import opened PsuCircuit
  import opened PsuChannel
  import opened ScpiCommands
  import opened ScpiClient

  /** How a token reads as a floating-point number. */
  datatype ParsedFloat = Real(value: real) | NotFinite | Malformed

  type FloatParser = string -> ParsedFloat

  datatype PsuState = PsuState(channels: seq<Channel>, errors: seq<ScpiError>)

  function Start(count: nat): PsuState {
    PsuState(seq(count, i requires 0 <= i < count => Fresh(i + 1, DEFAULT_LOAD)), [])
  }

  // ---- Reading arguments ----

  function ParseRanged(float: FloatParser, token: string, minimum: real, maximum: real): Result<real, ScpiError> {
    var upper := Upper(token);
    if upper in {"MAX", "MAXIMUM"} then Ok(maximum)
    else if upper in {"MIN", "MINIMUM", "DEF", "DEFAULT"} then Ok(minimum)
    else
      match float(token)
      case Malformed => Err(InvalidCharacterData)
      case NotFinite => Err(DataOutOfRange)
      case Real(v) => if minimum <= v <= maximum then Ok(v) else Err(DataOutOfRange)
  }

  function ParseBool(token: string): Result<bool, ScpiError> {
    var upper := Upper(token);
    if upper in {"1", "ON"} then Ok(true)
    else if upper in {"0", "OFF"} then Ok(false)
    else Err(IllegalParameterValue)
  }

  function ParseRemoteSense(token: string): Result<bool, ScpiError> {
    var upper := Upper(token);
    if upper == "REM" then Ok(true) else if upper == "LOC" then Ok(false) else Err(IllegalParameterValue)
  }

  // ---- Updating all channels ----

  function SettleAll(channels: seq<Channel>): (r: seq<Channel>)
    ensures |r| == |channels|
    ensures forall i :: 0 <= i < |r| ==> r[i] == Settle(channels[i]).channel
  {
    seq(|channels|, i requires 0 <= i < |channels| => Settle(channels[i]).channel)
  }

  function Reports(channels: seq<Channel>): seq<ScpiError> {
    if channels == [] then []
    else Reports(channels[..|channels| - 1]) + Settle(channels[|channels| - 1]).errors
  }

  function Updated(s: PsuState): PsuState {
    PsuState(SettleAll(s.channels), s.errors + Reports(s.channels))
  }

  // ---- Commands ----

  function FindChannel(channels: seq<Channel>, id: int): (r: Option<nat>)
    ensures r.Some? ==> r.value < |channels| && channels[r.value].channelId == id
    ensures r.Some? ==> forall i :: 0 <= i < r.value ==> channels[i].channelId != id
    ensures r.None? ==> forall c :: c in channels ==> c.channelId != id
  {
    if channels == [] then None
    else if channels[0].channelId == id then Some(0)
    else
      match FindChannel(channels[1..], id)
      case None => None
      case Some(i) => Some(i + 1)
  }

  function Push(s: PsuState, e: ScpiError): PsuState {
    s.(errors := s.errors + [e])
  }

  predicate IsSetter(h: Handler) {
    h.SetVoltage? || h.SetCurrent? || h.SetOcpLevel? || h.SetOcpState? || h.SetOvpLevel? || h.SetOvpState? || h.SetOutput?
    || h.SetRemoteSense?
  }

  function ClearTrips(c: Channel): Channel {
    c.(latched := false, ovTripped := false, ocTripped := false)
  }

  /** What a setter makes of the channel's settings, before the update, or the error it reports. */
  function Apply(float: FloatParser, h: Handler, c: Channel, token: string): Result<Channel, ScpiError>
    requires IsSetter(h)
  {
    match h
    case SetVoltage => (
      match ParseRanged(float, token, CHANNEL_MIN, c.voltageMax)
      case Err(e) => Err(e)
      case Ok(v) => if v > c.ovpLevel then Err(PvAboveOvp) else Ok(c.(voltageSetpoint := v)))
    case SetCurrent => (
      match ParseRanged(float, token, CHANNEL_MIN, c.currentMax)
      case Err(e) => Err(e)
      case Ok(v) => if v > c.ocpLevel then Err(PcAboveOcp) else Ok(c.(currentLimit := v)))
    case SetOcpLevel => (
      match ParseRanged(float, token, PROTECTION_MIN, c.currentMax)
      case Err(e) => Err(e)
      case Ok(v) => if v < c.currentLimit then Err(OcpBelowPc) else Ok(c.(ocpLevel := v)))
    case SetOvpLevel => (
      match ParseRanged(float, token, PROTECTION_MIN, c.voltageMax)
      case Err(e) => Err(e)
      case Ok(v) => if v < c.voltageSetpoint then Err(OvpBelowPv) else Ok(c.(ovpLevel := v)))
    case SetOcpState => (
      match ParseBool(token)
      case Err(e) => Err(e)
      case Ok(b) => Ok(c.(ocpEnabled := b)))
    case SetOvpState => (
      match ParseBool(token)
      case Err(e) => Err(e)
      case Ok(b) => Ok(c.(ovpEnabled := b)))
    case SetOutput => (
      match ParseBool(token)
      case Err(e) => Err(e)
      case Ok(b) => Ok((if b then ClearTrips(c) else c).(outputEnabled := b)))
    case SetRemoteSense =>
      match ParseRemoteSense(token)
      case Err(e) => Err(e)
      case Ok(b) => Ok(c.(remoteSense := b))
  }

  function Exec(float: FloatParser, s: PsuState, h: Handler, channel: int, args: seq<string>): PsuState {
    if IsSetter(h) then ExecSetter(float, s, h, channel, args) else ExecOther(s, h, channel)
  }

  function ExecOther(s: PsuState, h: Handler, channel: int): PsuState {
    match h
    case GetId => s
    case Reset => ResetAll(s)
    case ClearStatus => s.(errors := [])
    case GetError => if s.errors == [] then s else s.(errors := s.errors[1..])
    case MeasureVoltage => RequireChannel(Updated(s), channel)
    case MeasureCurrent => RequireChannel(Updated(s), channel)
    case ClearProtectionLatch => ExecClearLatch(s, channel)
    case _ => RequireChannel(s, channel)
  }

  function ExecClearLatch(s: PsuState, channel: int): PsuState {
    match FindChannel(s.channels, channel)
    case None => Push(s, HeaderSuffixOutOfRange)
    case Some(i) => Updated(s.(channels := s.channels[i := ClearTrips(s.channels[i])]))
  }

  function ResetAll(s: PsuState): PsuState {
    PsuState(seq(|s.channels|, i requires 0 <= i < |s.channels| => ResetChannel(s.channels[i])), [])
  }

  function RequireChannel(s: PsuState, channel: int): PsuState {
    if FindChannel(s.channels, channel).None? then Push(s, HeaderSuffixOutOfRange) else s
  }

  function ExecSetter(float: FloatParser, s: PsuState, h: Handler, channel: int, args: seq<string>): PsuState
    requires IsSetter(h)
  {
    match FindChannel(s.channels, channel)
    case None => Push(s, HeaderSuffixOutOfRange)
    case Some(i) =>
      if args == [] then Push(s, MissingParameter)
      else
        match Apply(float, h, s.channels[i], args[0])
        case Err(e) => Push(s, e)
        case Ok(c) => Updated(s.(channels := s.channels[i := c]))
  }

  datatype Answer = Silence | Identity | Number(value: real) | Flag(on: bool) | RemoteSense(remote: bool) | ErrorReport(error: Option<ScpiError>)

  /** What a channel answers. */
  function Observe(c: Channel, h: Handler): Answer {
    match h
    case MeasureVoltage => Number(Sensed(c))
    case MeasureCurrent => Number(c.reading.current)
    case QueryVoltage => Number(c.voltageSetpoint)
    case QueryCurrent => Number(c.currentLimit)
    case QueryOcpLevel => Number(c.ocpLevel)
    case QueryOvpLevel => Number(c.ovpLevel)
    case QueryOcpState => Flag(c.ocpEnabled)
    case QueryOvpState => Flag(c.ovpEnabled)
    case QueryOutput => Flag(c.outputEnabled)
    case QueryProtectionTripped => Flag(c.latched || c.ovTripped || c.ocTripped)
    case QueryRemoteSense => RemoteSense(c.remoteSense)
    case _ => Silence
  }

  /** What a query of a missing channel answers: zero, off, local. */
  function Nothing(h: Handler): Answer {
    match h
    case MeasureVoltage => Number(0.0)
    case MeasureCurrent => Number(0.0)
    case QueryVoltage => Number(0.0)
    case QueryCurrent => Number(0.0)
    case QueryOcpLevel => Number(0.0)
    case QueryOvpLevel => Number(0.0)
    case QueryOcpState => Flag(false)
    case QueryOvpState => Flag(false)
    case QueryOutput => Flag(false)
    case QueryProtectionTripped => Flag(false)
    case QueryRemoteSense => RemoteSense(false)
    case _ => Silence
  }

  function AnswerOn(s: PsuState, h: Handler, channel: int): Answer {
    match FindChannel(s.channels, channel)
    case None => Nothing(h)
    case Some(i) => Observe(s.channels[i], h)
  }

  /** What a handler answers, in the state in which it is called; measurements update first. */
  function Respond(s: PsuState, h: Handler, channel: int): Answer {
    match h
    case GetId => Identity
    case GetError => ErrorReport(if s.errors == [] then None else Some(s.errors[0]))
    case MeasureVoltage => AnswerOn(Updated(s), h, channel)
    case MeasureCurrent => AnswerOn(Updated(s), h, channel)
    case _ => AnswerOn(s, h, channel)
  }

  /** A whole received line, from dispatch to effect. */
  function ProcessLine(float: FloatParser, s: PsuState, line: string): PsuState {
    match Dispatch(line)
    case Ignored => s
    case Refused(e) => Push(s, if e.UndefinedHeader? then PsuChannel.UndefinedHeader else PsuChannel.ParameterNotAllowed)
    case Call(h, channel, args) => Exec(float, s, h, channel, args)
  }

  /** What a received line is answered with. */
  function AnswerLine(s: PsuState, line: string): Answer {
    match Dispatch(line)
    case Ignored => Silence
    case Refused(_) => Silence
    case Call(h, channel, _) => Respond(s, h, channel)
  }

  /** Commands that set, reset or clear answer nothing. */
  lemma SilentHandlers(s: PsuState, h: Handler, channel: int)
    ensures IsSetter(h) || h == Reset || h == ClearStatus || h == ClearProtectionLatch ==> Respond(s, h, channel) == Silence
  {}

  // ---- Operator edits ----

  datatype Edit =
    | EditLoad(id: int, load: Load)         // load resistance, EMF or probe resistance
    | EditVoltageMax(id: int, value: real)
    | EditCurrentMax(id: int, value: real)
    | AddChannel
    | RemoveChannel(id: int)
    | Refresh

  function MaxId(channels: seq<Channel>): int {
    if channels == [] then 0
    else
      var m, last := MaxId(channels[..|channels| - 1]), channels[|channels| - 1].channelId;
      if |channels| == 1 || last > m then last else m
  }

  function Without(channels: seq<Channel>, id: int): seq<Channel> {
    if channels == [] then []
    else
      var front, last := Without(channels[..|channels| - 1], id), channels[|channels| - 1];
      if last.channelId == id then front else front + [last]
  }

  function ApplyEdit(s: PsuState, e: Edit): PsuState {
    match e
    case Refresh => Updated(s)
    case AddChannel => s.(channels := s.channels + [Fresh(MaxId(s.channels) + 1, DEFAULT_LOAD)])
    case RemoveChannel(id) => s.(channels := Without(s.channels, id))
    case EditLoad(id, load) => (
      match FindChannel(s.channels, id)
      case None => s
      case Some(i) => Updated(s.(channels := s.channels[i := s.channels[i].(load := load)])))
    case EditVoltageMax(id, value) => (
      match FindChannel(s.channels, id)
      case None => s
      case Some(i) =>
        if value < CHANNEL_MIN then s else ResetAll(s.(channels := s.channels[i := s.channels[i].(voltageMax := value)])))
    case EditCurrentMax(id, value) => (
      match FindChannel(s.channels, id)
      case None => s
      case Some(i) =>
        if value < CHANNEL_MIN then s else ResetAll(s.(channels := s.channels[i := s.channels[i].(currentMax := value)])))
  }

  // ---- Runs ----

  datatype Action = Line(text: string) | Operator(edit: Edit)

  function Step(float: FloatParser, s: PsuState, a: Action): PsuState {
    match a
    case Line(text) => ProcessLine(float, s, text)
    case Operator(e) => ApplyEdit(s, e)
  }

  ghost function RunTo(float: FloatParser, s: PsuState, actions: seq<Action>): PsuState {
    if actions == [] then s
    else Step(float, RunTo(float, s, actions[..|actions| - 1]), actions[|actions| - 1])
  }

  /** Settings within limits, latches consistent, and every channel settled. */
  predicate GoodChannel(c: Channel) {
    InLimits(c) && LatchConsistent(c) && Settled(c)
  }

  ghost predicate Good(s: PsuState) {
    forall i :: 0 <= i < |s.channels| ==> GoodChannel(s.channels[i])
  }

  /** Good settings are all an update needs to make everything good. */
  ghost predicate Sound(channels: seq<Channel>) {
    forall i :: 0 <= i < |channels| ==> InLimits(channels[i]) && LatchConsistent(channels[i])
  }

  lemma UpdatedIsGood(s: PsuState)
    requires Sound(s.channels)
    ensures Good(Updated(s))
  {
    forall i | 0 <= i < |s.channels| ensures GoodChannel(Updated(s).channels[i]) {
      SettleKeepsInvariants(s.channels[i]);
      SettleSettles(s.channels[i]);
    }
  }

  lemma {:induction false} NothingToReport(channels: seq<Channel>)
    requires forall i :: 0 <= i < |channels| ==> Settled(channels[i])
    ensures SettleAll(channels) == channels && Reports(channels) == []
  {
    if channels != [] {
      NothingToReport(channels[..|channels| - 1]);
    }
  }

  /** In a good state an update changes nothing and reports nothing: measuring and refreshing
      never disturb the supply. */
  lemma UpdateDisturbsNothing(s: PsuState)
    requires Good(s)
    ensures Updated(s) == s
  {
    assert forall i :: 0 <= i < |s.channels| ==> GoodChannel(s.channels[i]);
    NothingToReport(s.channels);
  }

  lemma ApplyKeepsSound(float: FloatParser, h: Handler, c: Channel, token: string)
    requires IsSetter(h) && GoodChannel(c) && Apply(float, h, c, token).Ok?
    ensures var d := Apply(float, h, c, token).value; InLimits(d) && LatchConsistent(d)
  {}

  lemma OneChanged(s: PsuState, i: nat, c: Channel)
    requires Good(s) && i < |s.channels| && InLimits(c) && LatchConsistent(c)
    ensures Sound(s.channels[i := c])
  {
    assert forall j :: 0 <= j < |s.channels| ==> GoodChannel(s.channels[j]);
  }

  lemma ResetAllIsGood(s: PsuState)
    requires forall i :: 0 <= i < |s.channels| ==> s.channels[i].voltageMax >= 0.0 && s.channels[i].currentMax >= 0.0
    ensures Good(ResetAll(s))
  {
    forall i | 0 <= i < |s.channels| ensures GoodChannel(ResetAll(s).channels[i]) {
      ResetIsSettled(s.channels[i]);
    }
  }

  lemma SetterKeepsGood(float: FloatParser, s: PsuState, h: Handler, channel: int, args: seq<string>)
    requires Good(s) && IsSetter(h)
    ensures Good(ExecSetter(float, s, h, channel, args))
  {
    var found := FindChannel(s.channels, channel);
    if found.Some? && args != [] && Apply(float, h, s.channels[found.value], args[0]).Ok? {
      var c := Apply(float, h, s.channels[found.value], args[0]).value;
      assert GoodChannel(s.channels[found.value]);
      ApplyKeepsSound(float, h, s.channels[found.value], args[0]);
      OneChanged(s, found.value, c);
      UpdatedIsGood(s.(channels := s.channels[found.value := c]));
    }
  }

  lemma ExecKeepsGood(float: FloatParser, s: PsuState, h: Handler, channel: int, args: seq<string>)
    requires Good(s)
    ensures Good(Exec(float, s, h, channel, args))
  {
    if IsSetter(h) {
      SetterKeepsGood(float, s, h, channel, args);
    } else if h == Reset {
      assert forall i :: 0 <= i < |s.channels| ==> GoodChannel(s.channels[i]);
      ResetAllIsGood(s);
    } else if h == MeasureVoltage || h == MeasureCurrent {
      UpdateDisturbsNothing(s);
    } else if h == ClearProtectionLatch {
      ClearLatchKeepsGood(s, channel);
    }
  }

  lemma ClearLatchKeepsGood(s: PsuState, channel: int)
    requires Good(s)
    ensures Good(ExecClearLatch(s, channel))
  {
    var found := FindChannel(s.channels, channel);
    if found.Some? {
      var c := ClearTrips(s.channels[found.value]);
      assert GoodChannel(s.channels[found.value]);
      OneChanged(s, found.value, c);
      UpdatedIsGood(s.(channels := s.channels[found.value := c]));
    }
  }

  lemma {:induction false} WithoutIsGood(channels: seq<Channel>, id: int)
    requires forall i :: 0 <= i < |channels| ==> GoodChannel(channels[i])
    ensures forall i :: 0 <= i < |Without(channels, id)| ==> GoodChannel(Without(channels, id)[i])
  {
    if channels != [] {
      WithoutIsGood(channels[..|channels| - 1], id);
    }
  }

  lemma EditKeepsGood(s: PsuState, e: Edit)
    requires Good(s)
    ensures Good(ApplyEdit(s, e))
  {
    match e
    case Refresh => UpdateDisturbsNothing(s);
    case AddChannel => assert GoodChannel(Fresh(MaxId(s.channels) + 1, DEFAULT_LOAD));
    case RemoveChannel(id) => WithoutIsGood(s.channels, id);
    case EditLoad(id, load) =>
      var found := FindChannel(s.channels, id);
      if found.Some? {
        assert GoodChannel(s.channels[found.value]);
        OneChanged(s, found.value, s.channels[found.value].(load := load));
        UpdatedIsGood(s.(channels := s.channels[found.value := s.channels[found.value].(load := load)]));
      }
    case EditVoltageMax(id, value) => LimitEditKeepsGood(s, id, value);
    case EditCurrentMax(id, value) => LimitEditKeepsGood(s, id, value);
  }

  lemma LimitEditKeepsGood(s: PsuState, id: int, value: real)
    requires Good(s)
    ensures Good(ApplyEdit(s, EditVoltageMax(id, value))) && Good(ApplyEdit(s, EditCurrentMax(id, value)))
  {
    assert forall i :: 0 <= i < |s.channels| ==> GoodChannel(s.channels[i]);
    var found := FindChannel(s.channels, id);
    if found.Some? && value >= CHANNEL_MIN {
      var c := s.channels[found.value];
      ResetAllIsGood(s.(channels := s.channels[found.value := c.(voltageMax := value)]));
      ResetAllIsGood(s.(channels := s.channels[found.value := c.(currentMax := value)]));
    }
  }

  /** Whatever lines are received and whatever the operator edits, in any order: settings stay
      within their protection levels and those within the limits, a latch is set exactly when one
      protection tripped and keeps the output off, and every channel is settled. */
  lemma {:induction false} RunKeepsGood(float: FloatParser, count: nat, actions: seq<Action>)
    ensures Good(RunTo(float, Start(count), actions))
  {
    if actions == [] {
      assert forall i :: 0 <= i < count ==> GoodChannel(Start(count).channels[i]);
    } else {
      var s := RunTo(float, Start(count), actions[..|actions| - 1]);
      RunKeepsGood(float, count, actions[..|actions| - 1]);
      match actions[|actions| - 1]
      case Line(text) =>
        if Dispatch(text).Call? {
          ExecKeepsGood(float, s, Dispatch(text).handler, Dispatch(text).channel, Dispatch(text).args);
        }
      case Operator(e) => EditKeepsGood(s, e);
    }
  }

  /** A channel that is off shows nothing; one that is on violates no enabled protection. */
  predicate Safe(c: Channel) {
    && (!c.outputEnabled || c.latched ==> c.reading == NOTHING)
    && (c.outputEnabled && c.ovpEnabled ==> Sensed(c) <= c.ovpLevel)
    && (c.outputEnabled && c.ocpEnabled ==> Abs(c.reading.current) <= c.ocpLevel)
  }

  lemma GoodChannelIsSafe(c: Channel)
    requires GoodChannel(c)
    ensures Safe(c)
  {
    SettledMeansSafe(c);
  }

  lemma MeasuringDisturbsNothing(float: FloatParser, s: PsuState, channel: int, args: seq<string>)
    requires Good(s) && FindChannel(s.channels, channel).Some?
    ensures Exec(float, s, MeasureVoltage, channel, args) == s && Exec(float, s, MeasureCurrent, channel, args) == s
  {
    UpdateDisturbsNothing(s);
  }

  /** At every point of every run, an update, a refresh and a measurement of any channel leave the
      supply exactly as it was, and every channel is safe. */
  lemma ReachableSupplyIsSafe(float: FloatParser, count: nat, actions: seq<Action>, channel: int, args: seq<string>)
    ensures var s := RunTo(float, Start(count), actions);
            && Updated(s) == s && ApplyEdit(s, Refresh) == s
            && (FindChannel(s.channels, channel).Some? ==>
                  Exec(float, s, MeasureVoltage, channel, args) == s && Exec(float, s, MeasureCurrent, channel, args) == s)
            && forall c :: c in s.channels ==> Safe(c)
  {
    var s := RunTo(float, Start(count), actions);
    RunKeepsGood(float, count, actions);
    UpdateDisturbsNothing(s);
    if FindChannel(s.channels, channel).Some? {
      MeasuringDisturbsNothing(float, s, channel, args);
    }
    forall c | c in s.channels ensures Safe(c) {
      GoodChannelIsSafe(c);
    }
  }

  /** The output is on, into a load of positive total resistance. */
  predicate Driving(c: Channel) {
    c.outputEnabled && TotalResistance(CircuitOf(c)).Ohms? && TotalResistance(CircuitOf(c)).ohms > 0.0
  }

  lemma MeasuringReadsTheChannel(s: PsuState, channel: int)
    requires Updated(s) == s && FindChannel(s.channels, channel).Some?
    ensures Respond(s, MeasureVoltage, channel) == Number(Sensed(s.channels[FindChannel(s.channels, channel).value]))
  {}

  lemma SensedIsBounded(c: Channel)
    requires GoodChannel(c)
    ensures !c.outputEnabled ==> Sensed(c) == 0.0
    ensures Driving(c) ==> Sensed(c) <= c.voltageSetpoint
  {
    SettledMeansSafe(c);
    if Driving(c) {
      SensedVoltageAtMostSetpoint(CircuitOf(c));
    }
  }

  /** At every point of every run, a measured voltage is zero when the channel is off and, into
      a load with positive total resistance, never above the setpoint when it is on. */
  lemma MeasuredVoltageIsBounded(float: FloatParser, count: nat, actions: seq<Action>, channel: int)
    ensures var s := RunTo(float, Start(count), actions);
            FindChannel(s.channels, channel).Some? ==>
              var c := s.channels[FindChannel(s.channels, channel).value];
              && Respond(s, MeasureVoltage, channel) == Number(Sensed(c))
              && (!c.outputEnabled ==> Sensed(c) == 0.0)
              && (Driving(c) ==> Sensed(c) <= c.voltageSetpoint)
  {
    RunKeepsGood(float, count, actions);
    MeasuredInGoodState(RunTo(float, Start(count), actions), channel);
  }

  lemma MeasuredInGoodState(s: PsuState, channel: int)
    requires Good(s)
    ensures FindChannel(s.channels, channel).Some? ==>
              var c := s.channels[FindChannel(s.channels, channel).value];
              && Respond(s, MeasureVoltage, channel) == Number(Sensed(c))
              && (!c.outputEnabled ==> Sensed(c) == 0.0)
              && (Driving(c) ==> Sensed(c) <= c.voltageSetpoint)
  {
    var found := FindChannel(s.channels, channel);
    if found.Some? {
      UpdateDisturbsNothing(s);
      MeasuringReadsTheChannel(s, channel);
      SensedIsBounded(s.channels[found.value]);
    }
  }

  lemma SetterTouchesOneChannel(float: FloatParser, s: PsuState, h: Handler, channel: int, args: seq<string>, i: nat)
    requires Good(s) && IsSetter(h) && i < |s.channels| && s.channels[i].channelId != channel
    ensures var t := ExecSetter(float, s, h, channel, args);
            |t.channels| == |s.channels| && t.channels[i] == s.channels[i]
  {
    assert GoodChannel(s.channels[i]);
  }

  /** A command touches no channel but the one it names, unless it is a reset. */
  lemma OtherChannelsAreUntouched(float: FloatParser, s: PsuState, h: Handler, channel: int, args: seq<string>, i: nat)
    requires Good(s) && h != Reset && i < |s.channels| && s.channels[i].channelId != channel
    ensures var t := Exec(float, s, h, channel, args);
            |t.channels| == |s.channels| && t.channels[i] == s.channels[i]
  {
    assert GoodChannel(s.channels[i]);
    if IsSetter(h) {
      SetterTouchesOneChannel(float, s, h, channel, args, i);
    } else if h == MeasureVoltage || h == MeasureCurrent {
      UpdateDisturbsNothing(s);
    }
  }

  predicate IsTrip(e: ScpiError) {
    e == OvervoltageProtectionTripped || e == OvercurrentProtectionTripped
  }

  /** A setter either reports one error and changes no channel, or is carried out, and then the
      only errors it can report are protection trips. */
  lemma SettersAreAtomic(float: FloatParser, s: PsuState, h: Handler, channel: int, args: seq<string>)
    requires IsSetter(h)
    ensures var t := ExecSetter(float, s, h, channel, args);
            || (t.channels == s.channels && |t.errors| == |s.errors| + 1 && !IsTrip(t.errors[|s.errors|]))
            || (s.errors <= t.errors && forall i :: |s.errors| <= i < |t.errors| ==> IsTrip(t.errors[i]))
  {
    var found := FindChannel(s.channels, channel);
    if found.Some? && args != [] && Apply(float, h, s.channels[found.value], args[0]).Ok? {
      var c := Apply(float, h, s.channels[found.value], args[0]).value;
      OnlyTripsAreReported(s.channels[found.value := c]);
    }
  }

  lemma {:induction false} OnlyTripsAreReported(channels: seq<Channel>)
    ensures forall i :: 0 <= i < |Reports(channels)| ==> IsTrip(Reports(channels)[i])
  {
    if channels != [] {
      OnlyTripsAreReported(channels[..|channels| - 1]);
    }
  }

  /** The query that asks for what a setter sets. */
  function QueryOf(h: Handler): Handler
    requires IsSetter(h)
  {
    match h
    case SetVoltage => QueryVoltage
    case SetCurrent => QueryCurrent
    case SetOcpLevel => QueryOcpLevel
    case SetOvpLevel => QueryOvpLevel
    case SetOcpState => QueryOcpState
    case SetOvpState => QueryOvpState
    case SetRemoteSense => QueryRemoteSense
    case SetOutput => QueryOutput
  }

  // ---- What an argument says, in words and numbers ----

  predicate SaysOn(token: string) {
    Upper(token) == "ON" || Upper(token) == "1"
  }

  predicate SaysOff(token: string) {
    Upper(token) == "OFF" || Upper(token) == "0"
  }

  predicate SaysRemote(token: string) {
    Upper(token) == "REM"
  }

  predicate SaysLocal(token: string) {
    Upper(token) == "LOC"
  }

  predicate SaysMaximum(token: string) {
    Upper(token) == "MAX" || Upper(token) == "MAXIMUM"
  }

  predicate SaysMinimum(token: string) {
    Upper(token) == "MIN" || Upper(token) == "MINIMUM" || Upper(token) == "DEF" || Upper(token) == "DEFAULT"
  }

  predicate SaysNumber(float: FloatParser, token: string) {
    SaysMaximum(token) || SaysMinimum(token) || float(token).Real?
  }

  /** The number a token names, for a quantity that reaches from zero to `maximum`. */
  function NumberSaid(float: FloatParser, token: string, maximum: real): real {
    if SaysMaximum(token) then maximum
    else if SaysMinimum(token) then 0.0
    else
      match float(token)
      case Real(v) => v
      case _ => 0.0
  }

  /** What the argument of an accepted setter says; the output stays on only if nothing trips. */
  function Meant(float: FloatParser, h: Handler, c: Channel, token: string): Answer
    requires IsSetter(h)
  {
    match h
    case SetVoltage => Number(NumberSaid(float, token, c.voltageMax))
    case SetCurrent => Number(NumberSaid(float, token, c.currentMax))
    case SetOcpLevel => Number(NumberSaid(float, token, c.currentMax))
    case SetOvpLevel => Number(NumberSaid(float, token, c.voltageMax))
    case SetOcpState => Flag(SaysOn(token))
    case SetOvpState => Flag(SaysOn(token))
    case SetRemoteSense => RemoteSense(SaysRemote(token))
    case SetOutput => Flag(SaysOn(token) && Settle(ClearTrips(c).(outputEnabled := true)).errors == [])
  }

  /** After an accepted setter, the matching query answers what the first argument said. */
  lemma SetThenQuery(float: FloatParser, s: PsuState, h: Handler, channel: int, args: seq<string>)
    requires Good(s) && IsSetter(h) && FindChannel(s.channels, channel).Some? && args != []
    requires Apply(float, h, s.channels[FindChannel(s.channels, channel).value], args[0]).Ok?
    ensures Respond(Exec(float, s, h, channel, args), QueryOf(h), channel) ==
            Meant(float, h, s.channels[FindChannel(s.channels, channel).value], args[0])
  {
    var i := FindChannel(s.channels, channel).value;
    var c := s.channels[i];
    ApplyKeepsId(float, h, c, args[0]);
    SettledAnswer(float, h, c, args[0]);
    AnswerAfterEdit(s, i, Apply(float, h, c, args[0]).value, h, channel);
  }

  lemma AnswerAfterEdit(s: PsuState, i: nat, d: Channel, h: Handler, channel: int)
    requires IsSetter(h) && FindChannel(s.channels, channel) == Some(i) && d.channelId == channel
    ensures Respond(Updated(s.(channels := s.channels[i := d])), QueryOf(h), channel) == Observe(Settle(d).channel, QueryOf(h))
  {
    var edited := s.(channels := s.channels[i := d]);
    UpdateKeepsIds(edited);
    FindFirst(Updated(edited).channels, channel, i);
    QueryAnswers(Updated(edited), h, channel, i);
  }

  lemma QueryAnswers(s: PsuState, h: Handler, channel: int, i: nat)
    requires IsSetter(h) && FindChannel(s.channels, channel) == Some(i)
    ensures Respond(s, QueryOf(h), channel) == Observe(s.channels[i], QueryOf(h))
  {}

  lemma SettledAnswer(float: FloatParser, h: Handler, c: Channel, token: string)
    requires IsSetter(h) && Apply(float, h, c, token).Ok?
    ensures Observe(Settle(Apply(float, h, c, token).value).channel, QueryOf(h)) == Meant(float, h, c, token)
  {
    SettleKeepsSettings(Apply(float, h, c, token).value);
  }

  lemma ApplyKeepsId(float: FloatParser, h: Handler, c: Channel, token: string)
    requires IsSetter(h) && Apply(float, h, c, token).Ok?
    ensures Apply(float, h, c, token).value.channelId == c.channelId
  {
    match h
    case SetVoltage =>
    case SetCurrent =>
    case SetOcpLevel =>
    case SetOvpLevel =>
    case SetOcpState =>
    case SetOvpState =>
    case SetOutput =>
    case SetRemoteSense =>
  }

  lemma SettleKeepsSettings(c: Channel)
    ensures var d := Settle(c).channel;
            && d == c.(reading := d.reading, latched := d.latched, outputEnabled := d.outputEnabled,
                       ovTripped := d.ovTripped, ocTripped := d.ocTripped)
            && (d.outputEnabled <==> c.outputEnabled && Settle(c).errors == [])
  {}

  lemma UpdateKeepsIds(s: PsuState)
    ensures |Updated(s).channels| == |s.channels|
    ensures forall i :: 0 <= i < |s.channels| ==> Updated(s).channels[i].channelId == s.channels[i].channelId
  {
    forall i | 0 <= i < |s.channels| ensures Updated(s).channels[i].channelId == s.channels[i].channelId {
      SettleKeepsSettings(s.channels[i]);
    }
  }

  lemma {:induction false} FindFirst(channels: seq<Channel>, id: int, i: nat)
    requires i < |channels| && channels[i].channelId == id && forall j :: 0 <= j < i ==> channels[j].channelId != id
    ensures FindChannel(channels, id) == Some(i)
  {
    if i > 0 {
      FindFirst(channels[1..], id, i - 1);
    }
  }
}
