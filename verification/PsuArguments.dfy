/** What commands to the simulated supply mean, in the words and numbers of their arguments and in
    the answers of later queries, without reference to how arguments are parsed or stored. */
module PsuArguments {
  import opened Wrappers
  import opened PsuCircuit
  import opened PsuChannel
  import opened ScpiCommands
  import opened PsuMachine
  import opened PsuTrips
  import ScpiClient

  // ---- Which arguments are taken, and what refuses the others ----

  predicate Within(v: real, low: real, high: real) {
    low <= v <= high
  }

  /** A setting is taken when it is a number between zero and the channel's maximum that respects
      its protection, or a word that the switch knows. */
  predicate Acceptable(float: FloatParser, h: Handler, c: Channel, token: string)
    requires IsSetter(h)
  {
    match h
    case SetVoltage => SaysNumber(float, token) && Within(NumberSaid(float, token, c.voltageMax), 0.0, c.ovpLevel)
    case SetCurrent => SaysNumber(float, token) && Within(NumberSaid(float, token, c.currentMax), 0.0, c.ocpLevel)
    case SetOvpLevel => SaysNumber(float, token) && Within(NumberSaid(float, token, c.voltageMax), c.voltageSetpoint, c.voltageMax)
    case SetOcpLevel => SaysNumber(float, token) && Within(NumberSaid(float, token, c.currentMax), c.currentLimit, c.currentMax)
    case SetRemoteSense => SaysRemote(token) || SaysLocal(token)
    case _ => SaysOn(token) || SaysOff(token)
  }

  /** What an argument is refused with. */
  function Refusal(float: FloatParser, h: Handler, c: Channel, token: string): ScpiError
    requires IsSetter(h)
  {
    var maximum := if h == SetVoltage || h == SetOvpLevel then c.voltageMax else c.currentMax;
    if h == SetOutput || h == SetOcpState || h == SetOvpState || h == SetRemoteSense then IllegalParameterValue
    else if !SaysNumber(float, token) then (if float(token).NotFinite? then DataOutOfRange else InvalidCharacterData)
    else if !Within(NumberSaid(float, token, maximum), 0.0, maximum) then DataOutOfRange
    else match h
      case SetVoltage => PvAboveOvp
      case SetCurrent => PcAboveOcp
      case SetOvpLevel => OvpBelowPv
      case _ => OcpBelowPc
  }

  lemma ArgumentLaw(float: FloatParser, h: Handler, c: Channel, token: string)
    requires IsSetter(h) && InLimits(c)
    ensures Apply(float, h, c, token).Ok? <==> Acceptable(float, h, c, token)
    ensures !Acceptable(float, h, c, token) ==> Apply(float, h, c, token) == Err(Refusal(float, h, c, token))
  {
    RangedLaw(float, token, c.voltageMax);
    RangedLaw(float, token, c.currentMax);
    match h
    case SetVoltage =>
    case SetCurrent =>
    case SetOvpLevel =>
    case SetOcpLevel =>
    case SetRemoteSense =>
    case SetOutput =>
    case SetOcpState =>
    case SetOvpState =>
  }

  lemma RangedLaw(float: FloatParser, token: string, maximum: real)
    requires maximum >= 0.0
    ensures var parsed := ParseRanged(float, token, 0.0, maximum);
            if !SaysNumber(float, token) then
              parsed == Err(if float(token).NotFinite? then DataOutOfRange else InvalidCharacterData)
            else if Within(NumberSaid(float, token, maximum), 0.0, maximum) then parsed == Ok(NumberSaid(float, token, maximum))
            else parsed == Err(DataOutOfRange)
  {}

  /** A setter names the missing channel, the missing argument or the reason of the refusal, and
      changes nothing; or the matching query then answers what its first argument said. */
  lemma SetterLaw(float: FloatParser, s: PsuState, h: Handler, channel: int, args: seq<string>)
    requires Good(s) && IsSetter(h)
    ensures var t, found := Exec(float, s, h, channel, args), FindChannel(s.channels, channel);
            if found.None? then t == Push(s, HeaderSuffixOutOfRange)
            else if args == [] then t == Push(s, MissingParameter)
            else if !Acceptable(float, h, s.channels[found.value], args[0]) then
              t == Push(s, Refusal(float, h, s.channels[found.value], args[0]))
            else Respond(t, QueryOf(h), channel) == Meant(float, h, s.channels[found.value], args[0])
  {
    var found := FindChannel(s.channels, channel);
    if found.Some? && args != [] {
      assert GoodChannel(s.channels[found.value]);
      ArgumentLaw(float, h, s.channels[found.value], args[0]);
      if Acceptable(float, h, s.channels[found.value], args[0]) {
        SetThenQuery(float, s, h, channel, args);
      }
    }
  }

  // ---- A setter sets one thing ----

  lemma ApplyKeepsOtherSettings(float: FloatParser, h: Handler, c: Channel, token: string, other: Handler)
    requires IsSetter(h) && IsSetter(other) && other != h && Apply(float, h, c, token).Ok?
    ensures Observe(Apply(float, h, c, token).value, QueryOf(other)) == Observe(c, QueryOf(other))
  {
    match h
    case SetVoltage =>
    case SetCurrent =>
    case SetOcpLevel =>
    case SetOvpLevel =>
    case SetOcpState =>
    case SetOvpState =>
    case SetOutput =>
    case SetRemoteSense =>
  }

  lemma SettleKeepsAnswers(c: Channel, other: Handler)
    requires IsSetter(other) && other != SetOutput
    ensures Observe(Settle(c).channel, QueryOf(other)) == Observe(c, QueryOf(other))
  {
    SettleKeepsSettings(c);
  }

  /** An accepted setter leaves the answer of every other setting's query as it was; the output
      stays on unless something trips. */
  lemma SetterChangesOneSetting(float: FloatParser, s: PsuState, h: Handler, channel: int, args: seq<string>, other: Handler)
    requires Good(s) && IsSetter(h) && IsSetter(other) && other != h
    requires FindChannel(s.channels, channel).Some? && args != []
    requires Acceptable(float, h, s.channels[FindChannel(s.channels, channel).value], args[0])
    ensures var t := Exec(float, s, h, channel, args);
            Respond(t, QueryOf(other), channel) ==
            if other != SetOutput then Respond(s, QueryOf(other), channel)
            else Flag(Respond(s, QueryOutput, channel) == Flag(true) && t.errors == s.errors)
  {
    var i := FindChannel(s.channels, channel).value;
    var c := s.channels[i];
    assert GoodChannel(c);
    ArgumentLaw(float, h, c, args[0]);
    var d := Apply(float, h, c, args[0]).value;
    ApplyKeepsId(float, h, c, args[0]);
    ApplyKeepsSound(float, h, c, args[0]);
    ApplyKeepsOtherSettings(float, h, c, args[0], other);
    AnswerAfterEdit(s, i, d, other, channel);
    QueryAnswers(s, other, channel, i);
    if other != SetOutput {
      SettleKeepsAnswers(d, other);
    } else {
      SettleKeepsSettings(d);
      ChangeIsReported(s, i, d);
      OwnReportIsExact(d);
      SameErrors(s.errors, OwnReport(d));
    }
  }

  lemma SameErrors(errors: seq<ScpiError>, more: seq<ScpiError>)
    ensures errors + more == errors <==> more == []
  {
    assert |errors + more| == |errors| + |more|;
  }

  /** An argument that says on clears latch and trips and, if nothing trips at once, leaves the
      output on; one that says off leaves it off and clears nothing; any other is refused. */
  lemma OutputWords(float: FloatParser, s: PsuState, channel: int, args: seq<string>)
    requires Good(s) && FindChannel(s.channels, channel).Some? && args != []
    ensures var i := FindChannel(s.channels, channel).value;
            var c, t := s.channels[i], Exec(float, s, SetOutput, channel, args);
            && |t.channels| == |s.channels|
            && var d := t.channels[i];
               if SaysOn(args[0]) then
                 (t.errors == s.errors <==> d.outputEnabled) && (d.outputEnabled ==> !d.latched && !Tripped(d))
               else if SaysOff(args[0]) then
                 t.errors == s.errors && !d.outputEnabled && d.latched == c.latched && Tripped(d) == Tripped(c)
               else t == Push(s, IllegalParameterValue)
  {
    var i := FindChannel(s.channels, channel).value;
    var c := s.channels[i];
    assert GoodChannel(c);
    SetterLaw(float, s, SetOutput, channel, args);
    if SaysOn(args[0]) {
      SwitchedOn(s, i);
    } else if SaysOff(args[0]) {
      SwitchedOff(s, i);
    }
  }

  lemma SwitchedOn(s: PsuState, i: nat)
    requires Good(s) && i < |s.channels|
    ensures var t := Updated(ChangeAt(s, i, ClearTrips(s.channels[i]).(outputEnabled := true)));
            && |t.channels| == |s.channels| && (t.errors == s.errors <==> t.channels[i].outputEnabled)
            && (t.channels[i].outputEnabled ==> !t.channels[i].latched && !Tripped(t.channels[i]))
  {
    var d := ClearTrips(s.channels[i]).(outputEnabled := true);
    assert GoodChannel(s.channels[i]);
    ChangeIsReported(s, i, d);
    OwnReportIsExact(d);
    SettleKeepsSettings(d);
    SameErrors(s.errors, OwnReport(d));
  }

  lemma SwitchedOff(s: PsuState, i: nat)
    requires Good(s) && i < |s.channels|
    ensures var c := s.channels[i];
            var t := Updated(ChangeAt(s, i, c.(outputEnabled := false)));
            && |t.channels| == |s.channels| && t.errors == s.errors && !t.channels[i].outputEnabled
            && t.channels[i].latched == c.latched && Tripped(t.channels[i]) == Tripped(c)
  {
    var d := s.channels[i].(outputEnabled := false);
    assert GoodChannel(s.channels[i]);
    ChangeIsReported(s, i, d);
    SameErrors(s.errors, OwnReport(d));
  }

  /** A blank line does nothing; a refused one reports its error and changes nothing else. */
  lemma RefusedLines(float: FloatParser, s: PsuState, line: string)
    ensures ScpiClient.Dispatch(line).Ignored? ==> ProcessLine(float, s, line) == s && AnswerLine(s, line) == Silence
    ensures ScpiClient.Dispatch(line) == ScpiClient.Refused(ScpiClient.UndefinedHeader) ==>
              ProcessLine(float, s, line) == s.(errors := s.errors + [UndefinedHeader]) && AnswerLine(s, line) == Silence
    ensures ScpiClient.Dispatch(line) == ScpiClient.Refused(ScpiClient.ParameterNotAllowed) ==>
              ProcessLine(float, s, line) == s.(errors := s.errors + [ParameterNotAllowed]) && AnswerLine(s, line) == Silence
  {}

  // ---- Resets, limits and the error queue ----

  /** What a channel answers right after a reset: nothing set, everything off, protection levels at
      the maximum, the sense mode kept. */
  function AfterReset(c: Channel, q: Handler): Answer {
    match q
    case QueryOvpLevel => Number(c.voltageMax)
    case QueryOcpLevel => Number(c.currentMax)
    case QueryRemoteSense => RemoteSense(c.remoteSense)
    case QueryVoltage => Number(0.0)
    case QueryCurrent => Number(0.0)
    case QueryOutput => Flag(false)
    case QueryOvpState => Flag(false)
    case QueryOcpState => Flag(false)
    case QueryProtectionTripped => Flag(false)
    case MeasureVoltage => Number(0.0)
    case MeasureCurrent => Number(0.0)
    case _ => Silence
  }

  predicate AsksChannel(q: Handler) {
    AfterReset(Fresh(0, DEFAULT_LOAD), q) != Silence
  }

  lemma {:induction false} FindInSameIds(a: seq<Channel>, b: seq<Channel>, id: int)
    requires |a| == |b| && forall i :: 0 <= i < |a| ==> a[i].channelId == b[i].channelId
    ensures FindChannel(a, id) == FindChannel(b, id)
  {
    if a != [] && a[0].channelId != id {
      FindInSameIds(a[1..], b[1..], id);
    }
  }

  lemma ResetAnswers(s: PsuState, channel: int, q: Handler)
    requires Good(s) && FindChannel(s.channels, channel).Some? && AsksChannel(q)
    ensures Respond(ResetAll(s), q, channel) == AfterReset(s.channels[FindChannel(s.channels, channel).value], q)
  {
    assert forall i :: 0 <= i < |s.channels| ==> GoodChannel(s.channels[i]);
    ResetAllIsGood(s);
    UpdateDisturbsNothing(ResetAll(s));
    FindInSameIds(s.channels, ResetAll(s).channels, channel);
    FreshAnswers(ResetAll(s), channel, s.channels[FindChannel(s.channels, channel).value], q);
  }

  lemma FreshAnswers(t: PsuState, channel: int, c: Channel, q: Handler)
    requires Updated(t) == t && FindChannel(t.channels, channel).Some? && AsksChannel(q)
    requires t.channels[FindChannel(t.channels, channel).value] == ResetChannel(c)
    ensures Respond(t, q, channel) == AfterReset(c, q)
  {
    ResetObserves(c, q);
    if q == MeasureVoltage || q == MeasureCurrent {
      assert Respond(t, q, channel) == AnswerOn(t, q, channel);
    }
  }

  lemma ResetObserves(c: Channel, q: Handler)
    requires AsksChannel(q)
    ensures Observe(ResetChannel(c), q) == AfterReset(c, q) && q != GetId && q != GetError
  {}

  /** A reset empties the error queue, keeps every channel, and leaves each answering as when new,
      with its limits, its load and its sense mode kept. */
  lemma ResetThenQuery(float: FloatParser, s: PsuState, channel: int, args: seq<string>, asked: int, q: Handler)
    requires Good(s) && FindChannel(s.channels, asked).Some? && AsksChannel(q)
    ensures var t := Exec(float, s, Reset, channel, args);
            t.errors == [] && Respond(t, q, asked) == AfterReset(s.channels[FindChannel(s.channels, asked).value], q)
  {
    ResetAnswers(s, asked, q);
  }

  /** A limit edit that takes effect resets the supply, and the channel then takes exactly that
      limit as its maximum. */
  lemma LimitEditLaw(float: FloatParser, s: PsuState, id: int, value: real, token: string)
    requires Good(s) && FindChannel(s.channels, id).Some? && SaysMaximum(token)
    ensures var t := ApplyEdit(s, EditVoltageMax(id, value));
            if value < 0.0 then t == s
            else Respond(Exec(float, t, SetVoltage, id, [token]), QueryVoltage, id) == Number(value)
    ensures var t := ApplyEdit(s, EditCurrentMax(id, value));
            if value < 0.0 then t == s
            else Respond(Exec(float, t, SetCurrent, id, [token]), QueryCurrent, id) == Number(value)
  {
    if value >= 0.0 {
      var i := FindChannel(s.channels, id).value;
      LimitEditKeepsGood(s, id, value);
      MaximumIsTaken(float, s, i, s.channels[i].(voltageMax := value), SetVoltage, token);
      MaximumIsTaken(float, s, i, s.channels[i].(currentMax := value), SetCurrent, token);
    }
  }

  lemma MaximumIsTaken(float: FloatParser, s: PsuState, i: nat, c: Channel, h: Handler, token: string)
    requires Good(s) && FindChannel(s.channels, c.channelId) == Some(i) && SaysMaximum(token) && (h == SetVoltage || h == SetCurrent)
    requires c.voltageMax >= 0.0 && c.currentMax >= 0.0
    ensures Respond(Exec(float, ResetAll(ChangeAt(s, i, c)), h, c.channelId, [token]), QueryOf(h), c.channelId) ==
            Number(if h == SetVoltage then c.voltageMax else c.currentMax)
  {
    var edited := ChangeAt(s, i, c);
    assert forall j :: 0 <= j < |s.channels| ==> GoodChannel(s.channels[j]);
    ResetAllIsGood(edited);
    FindInSameIds(s.channels, ResetAll(edited).channels, c.channelId);
    FreshTakesMaximum(float, ResetAll(edited), i, c, h, token);
  }

  lemma FreshTakesMaximum(float: FloatParser, t: PsuState, i: nat, c: Channel, h: Handler, token: string)
    requires Good(t) && FindChannel(t.channels, c.channelId) == Some(i) && t.channels[i] == ResetChannel(c)
    requires SaysMaximum(token) && (h == SetVoltage || h == SetCurrent) && c.voltageMax >= 0.0 && c.currentMax >= 0.0
    ensures Respond(Exec(float, t, h, c.channelId, [token]), QueryOf(h), c.channelId) ==
            Number(if h == SetVoltage then c.voltageMax else c.currentMax)
  {
    assert Acceptable(float, h, ResetChannel(c), token);
    SetterLaw(float, t, h, c.channelId, [token]);
  }

  /** Errors are read in the order in which they were reported, each once; an empty queue answers
      no error. */
  lemma ErrorsComeInOrder(float: FloatParser, s: PsuState, channel: int, args: seq<string>, first: ScpiError, rest: seq<ScpiError>)
    ensures s.errors == [] ==> Respond(s, GetError, channel) == ErrorReport(None) && Exec(float, s, GetError, channel, args) == s
    ensures s.errors == [first] + rest ==>
              Respond(s, GetError, channel) == ErrorReport(Some(first)) && Exec(float, s, GetError, channel, args) == s.(errors := rest)
    ensures Exec(float, s, ClearStatus, channel, args) == s.(errors := [])
  {
    assert ([first] + rest)[1..] == rest;
  }

  lemma FreshIsReset(id: int)
    ensures ResetChannel(Fresh(id, DEFAULT_LOAD)) == Fresh(id, DEFAULT_LOAD)
  {}

  /** A new supply has its channels numbered from one, with nothing set, 60 volts and 10 amperes at
      most. */
  lemma NewSupply(count: nat, channel: int, q: Handler)
    ensures FindChannel(Start(count).channels, channel).Some? <==> 1 <= channel <= count
    ensures 1 <= channel <= count && AsksChannel(q) ==>
              Respond(Start(count), q, channel) == AfterReset(Fresh(channel, DEFAULT_LOAD), q)
    ensures DEFAULT_VOLTAGE_MAX == 60.0 && DEFAULT_CURRENT_MAX == 10.0
  {
    var s := Start(count);
    if 1 <= channel <= count {
      FindFirst(s.channels, channel, channel - 1);
      assert forall i :: 0 <= i < count ==> GoodChannel(s.channels[i]);
      UpdateDisturbsNothing(s);
      if AsksChannel(q) {
        FreshIsReset(channel);
        FreshAnswers(s, channel, Fresh(channel, DEFAULT_LOAD), q);
      }
    }
  }
}
