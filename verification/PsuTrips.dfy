/** Runs of the simulated supply seen from outside: where each reported trip comes from, and what
    a client that sends a setting and asks for it is told. */
module PsuTrips {
  import opened Wrappers
  import opened PsuChannel
  import opened PsuMachine
  import opened ScpiCommands
  import ScpiClient

  // ---- Where trips come from ----

  /** What an update reports of a channel, said by its settings and its load alone. */
  function OwnReport(c: Channel): seq<ScpiError> {
    if c.outputEnabled && c.ovpEnabled && LiftsLoad(c) then [OvervoltageProtectionTripped]
    else if c.outputEnabled && c.ocpEnabled && FeedsBack(c) then [OvercurrentProtectionTripped]
    else []
  }

  function OwnReports(channels: seq<Channel>): seq<ScpiError> {
    if channels == [] then []
    else OwnReports(channels[..|channels| - 1]) + OwnReport(channels[|channels| - 1])
  }

  /** A channel reports a trip exactly when it meets the condition for it, and then it is this
      update that trips it. */
  lemma OwnReportIsExact(c: Channel)
    requires InLimits(c) && LatchConsistent(c)
    ensures Settle(c).errors == OwnReport(c)
    ensures OwnReport(c) == [OvervoltageProtectionTripped] <==> TripsOvp(c)
    ensures OwnReport(c) == [OvercurrentProtectionTripped] <==> TripsOcp(c)
  {
    OvpTripsIff(c);
    OcpTripsIff(c);
    ReportsTheTrip(c);
  }

  lemma ReportsTheTrip(c: Channel)
    requires LatchConsistent(c)
    ensures Settle(c).errors == if TripsOvp(c) then [OvervoltageProtectionTripped]
                                else if TripsOcp(c) then [OvercurrentProtectionTripped] else []
  {}

  /** An update reports the trips of the channels that meet a condition, one each, in the order of
      the channels, and nothing else. */
  lemma {:induction false} UpdateReportsExactly(channels: seq<Channel>)
    requires Sound(channels)
    ensures Reports(channels) == OwnReports(channels)
  {
    if channels != [] {
      UpdateReportsExactly(channels[..|channels| - 1]);
      OwnReportIsExact(channels[|channels| - 1]);
    }
  }

  // ---- What one action reports ----

  /** One channel with new settings, before the update that follows. */
  datatype Change = Change(index: nat, channel: Channel)

  function ChangeAt(s: PsuState, i: nat, c: Channel): PsuState
    requires i < |s.channels|
  {
    s.(channels := s.channels[i := c])
  }

  /** The channel that a handler changes before it updates the supply, if it does both. */
  function ChangeOfExec(float: FloatParser, s: PsuState, h: Handler, channel: int, args: seq<string>): Option<Change> {
    match FindChannel(s.channels, channel)
    case None => None
    case Some(i) =>
      if h == ClearProtectionLatch then Some(Change(i, ClearTrips(s.channels[i])))
      else if !IsSetter(h) || args == [] then None
      else
        match Apply(float, h, s.channels[i], args[0])
        case Err(_) => None
        case Ok(c) => Some(Change(i, c))
  }

  function ChangeOf(float: FloatParser, s: PsuState, a: Action): Option<Change> {
    match a
    case Operator(e) =>
      if !e.EditLoad? then None
      else (
        match FindChannel(s.channels, e.id)
        case None => None
        case Some(i) => Some(Change(i, s.channels[i].(load := e.load))))
    case Line(text) =>
      match ScpiClient.Dispatch(text)
      case Ignored => None
      case Refused(_) => None
      case Call(h, channel, args) => ChangeOfExec(float, s, h, channel, args)
  }

  /** The queue is kept, emptied, read from, or given one error that is not a trip. */
  ghost predicate AddsNoTrip(before: seq<ScpiError>, after: seq<ScpiError>) {
    || after == before || after == []
    || (before != [] && after == before[1..])
    || (exists e :: !IsTrip(e) && after == before + [e])
  }

  predicate Tripped(c: Channel) {
    c.ovTripped || c.ocTripped
  }

  ghost predicate TripsNothing(s: PsuState, t: PsuState) {
    && AddsNoTrip(s.errors, t.errors)
    && forall c :: c in t.channels && Tripped(c) ==> c in s.channels
  }

  /** What follows a change is reported exactly: the trip of the changed channel, if it meets a
      condition; all other channels stay as they are. */
  ghost predicate ReportsTheChange(s: PsuState, t: PsuState, change: Change) {
    var c := change.channel;
    && change.index < |s.channels|
    && t == PsuState(s.channels[change.index := Settle(c).channel], s.errors + OwnReport(c))
    && (OwnReport(c) == [OvervoltageProtectionTripped] <==> TripsOvp(c))
    && (OwnReport(c) == [OvercurrentProtectionTripped] <==> TripsOcp(c))
  }

  ghost predicate ReportedExactly(s: PsuState, t: PsuState, change: Option<Change>) {
    match change
    case None => TripsNothing(s, t)
    case Some(change) => ReportsTheChange(s, t, change)
  }

  lemma {:induction false} SettlesOnlyOne(channels: seq<Channel>, i: nat, c: Channel)
    requires i < |channels| && forall j :: 0 <= j < |channels| ==> Settled(channels[j])
    ensures SettleAll(channels[i := c]) == channels[i := Settle(c).channel]
    ensures Reports(channels[i := c]) == Settle(c).errors
  {
    var k := |channels| - 1;
    var front := channels[..k];
    if i == k {
      assert channels[i := c][..k] == front;
      NothingToReport(front);
    } else {
      SettlesOnlyOne(front, i, c);
      assert channels[i := c][..k] == front[i := c];
    }
  }

  lemma ChangeIsReported(s: PsuState, i: nat, c: Channel)
    requires Good(s) && i < |s.channels| && InLimits(c) && LatchConsistent(c)
    ensures ReportsTheChange(s, Updated(ChangeAt(s, i, c)), Change(i, c))
  {
    assert forall j :: 0 <= j < |s.channels| ==> GoodChannel(s.channels[j]);
    SettlesOnlyOne(s.channels, i, c);
    OwnReportIsExact(c);
  }

  lemma PushTripsNothing(s: PsuState, e: ScpiError)
    requires !IsTrip(e)
    ensures TripsNothing(s, Push(s, e))
  {}

  lemma ApplyReportsNoTrip(float: FloatParser, h: Handler, c: Channel, token: string)
    requires IsSetter(h) && Apply(float, h, c, token).Err?
    ensures !IsTrip(Apply(float, h, c, token).error)
  {}

  lemma SetterReports(float: FloatParser, s: PsuState, h: Handler, channel: int, args: seq<string>)
    requires Good(s) && IsSetter(h)
    ensures ReportedExactly(s, ExecSetter(float, s, h, channel, args), ChangeOfExec(float, s, h, channel, args))
  {
    var found := FindChannel(s.channels, channel);
    if found.None? {
      PushTripsNothing(s, HeaderSuffixOutOfRange);
    } else if args == [] {
      PushTripsNothing(s, MissingParameter);
    } else {
      var applied := Apply(float, h, s.channels[found.value], args[0]);
      if applied.Ok? {
        assert GoodChannel(s.channels[found.value]);
        ApplyKeepsSound(float, h, s.channels[found.value], args[0]);
        ChangeIsReported(s, found.value, applied.value);
      } else {
        ApplyReportsNoTrip(float, h, s.channels[found.value], args[0]);
        PushTripsNothing(s, applied.error);
      }
    }
  }

  lemma ClearLatchReports(float: FloatParser, s: PsuState, channel: int, args: seq<string>)
    requires Good(s)
    ensures ReportedExactly(s, ExecClearLatch(s, channel), ChangeOfExec(float, s, ClearProtectionLatch, channel, args))
  {
    var found := FindChannel(s.channels, channel);
    if found.Some? {
      assert GoodChannel(s.channels[found.value]);
      ChangeIsReported(s, found.value, ClearTrips(s.channels[found.value]));
    } else {
      PushTripsNothing(s, HeaderSuffixOutOfRange);
    }
  }

  lemma OthersTripNothing(s: PsuState, h: Handler, channel: int)
    requires Good(s) && !IsSetter(h) && h != ClearProtectionLatch
    ensures TripsNothing(s, ExecOther(s, h, channel))
  {
    PushTripsNothing(s, HeaderSuffixOutOfRange);
    UpdateDisturbsNothing(s);
  }

  lemma EditReports(float: FloatParser, s: PsuState, e: Edit)
    requires Good(s)
    ensures ReportedExactly(s, ApplyEdit(s, e), ChangeOf(float, s, Operator(e)))
  {
    match e
    case Refresh => UpdateDisturbsNothing(s);
    case RemoveChannel(id) => WithoutKeeps(s.channels, id);
    case EditLoad(id, load) =>
      var found := FindChannel(s.channels, id);
      if found.Some? {
        assert GoodChannel(s.channels[found.value]);
        ChangeIsReported(s, found.value, s.channels[found.value].(load := load));
      }
    case EditVoltageMax(id, value) =>
    case EditCurrentMax(id, value) =>
    case AddChannel =>
  }

  lemma {:induction false} WithoutKeeps(channels: seq<Channel>, id: int)
    ensures forall c :: c in Without(channels, id) ==> c in channels
  {
    if channels != [] {
      WithoutKeeps(channels[..|channels| - 1], id);
    }
  }

  /** At every point of every run, whatever comes next: an action that changes a channel and
      updates the supply reports that channel's trip exactly when its new settings meet the
      condition, and it is this action that trips it; every other action reports no trip and
      trips no channel. */
  lemma NewTripsAreExplained(float: FloatParser, count: nat, actions: seq<Action>, a: Action)
    ensures var s := RunTo(float, Start(count), actions); ReportedExactly(s, Step(float, s, a), ChangeOf(float, s, a))
  {
    RunKeepsGood(float, count, actions);
    StepReports(float, RunTo(float, Start(count), actions), a);
  }

  lemma StepReports(float: FloatParser, s: PsuState, a: Action)
    requires Good(s)
    ensures ReportedExactly(s, Step(float, s, a), ChangeOf(float, s, a))
  {
    match a
    case Operator(e) => EditReports(float, s, e);
    case Line(text) =>
      match ScpiClient.Dispatch(text)
      case Ignored =>
      case Refused(e) => PushTripsNothing(s, if e.UndefinedHeader? then UndefinedHeader else ParameterNotAllowed);
      case Call(h, channel, args) => ExecReports(float, s, h, channel, args);
  }

  lemma ExecReports(float: FloatParser, s: PsuState, h: Handler, channel: int, args: seq<string>)
    requires Good(s)
    ensures ReportedExactly(s, Exec(float, s, h, channel, args), ChangeOfExec(float, s, h, channel, args))
  {
    if IsSetter(h) {
      SetterReports(float, s, h, channel, args);
    } else if h == ClearProtectionLatch {
      ClearLatchReports(float, s, channel, args);
    } else {
      OthersTripNothing(s, h, channel);
    }
  }

  // ---- What a client is told ----

  /** At every point of every run, when the client's line sets something on a channel that is
      there and is not refused, the client's line that asks for it is answered with what the first
      line said; an output reads as on only if nothing trips. */
  lemma ClientReadsBackWhatItSet(float: FloatParser, count: nat, actions: seq<Action>, setting: ScpiClient.ClientMethod,
                                 asking: ScpiClient.ClientMethod, channel: nat, value: string)
    requires var s := RunTo(float, Start(count), actions);
             && ScpiClient.IsArgument(value) && FindChannel(s.channels, channel).Some?
             && IsSetter(ScpiClient.Intended(setting))
             && ScpiClient.Intended(asking) == QueryOf(ScpiClient.Intended(setting))
             && Apply(float, ScpiClient.Intended(setting), s.channels[FindChannel(s.channels, channel).value], value).Ok?
    ensures var s := RunTo(float, Start(count), actions);
            AnswerLine(ProcessLine(float, s, ScpiClient.Line(setting, channel, value)), ScpiClient.Line(asking, channel, value)) ==
            Meant(float, ScpiClient.Intended(setting), s.channels[FindChannel(s.channels, channel).value], value)
  {
    RunKeepsGood(float, count, actions);
    AnswerToLines(float, RunTo(float, Start(count), actions), setting, asking, channel, value);
  }

  lemma AnswerToLines(float: FloatParser, s: PsuState, setting: ScpiClient.ClientMethod, asking: ScpiClient.ClientMethod,
                      channel: nat, value: string)
    requires Good(s) && ScpiClient.IsArgument(value) && FindChannel(s.channels, channel).Some?
    requires IsSetter(ScpiClient.Intended(setting)) && ScpiClient.Intended(asking) == QueryOf(ScpiClient.Intended(setting))
    requires Apply(float, ScpiClient.Intended(setting), s.channels[FindChannel(s.channels, channel).value], value).Ok?
    ensures AnswerLine(ProcessLine(float, s, ScpiClient.Line(setting, channel, value)), ScpiClient.Line(asking, channel, value)) ==
            Meant(float, ScpiClient.Intended(setting), s.channels[FindChannel(s.channels, channel).value], value)
  {
    ScpiClient.ClientLinesAreUnderstood(setting, channel, value);
    ScpiClient.ClientLinesAreUnderstood(asking, channel, value);
    SettingsAreWritten(setting, asking);
    SetThenQuery(float, s, ScpiClient.Intended(setting), channel, [value]);
  }

  lemma SettingsAreWritten(setting: ScpiClient.ClientMethod, asking: ScpiClient.ClientMethod)
    requires IsSetter(ScpiClient.Intended(setting)) && ScpiClient.Intended(asking) == QueryOf(ScpiClient.Intended(setting))
    ensures !setting.CheckErrors? && !asking.CheckErrors? && !ScpiClient.IsQuery(setting) && ScpiClient.IsQuery(asking)
  {}
}
