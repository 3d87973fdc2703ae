/** One channel of the simulated power supply: its settings, its readings and its protection
    latches, and what an update makes of them. */
module PsuChannel {
  import opened PsuCircuit

  datatype ScpiError =
    | InvalidCharacterData
    | ParameterNotAllowed
    | MissingParameter
    | UndefinedHeader
    | HeaderSuffixOutOfRange
    | DataOutOfRange
    | IllegalParameterValue
    | PvAboveOvp
    | PcAboveOcp
    | OvpBelowPv
    | OcpBelowPc
    | OvercurrentProtectionTripped
    | OvervoltageProtectionTripped

  datatype Channel = Channel(
    channelId: int,
    voltageMax: real,
    currentMax: real,
    voltageSetpoint: real,
    currentLimit: real,
    ovpLevel: real,
    ovpEnabled: bool,
    ocpLevel: real,
    ocpEnabled: bool,
    remoteSense: bool,
    outputEnabled: bool,
    load: Load,
    reading: Reading,
    ovTripped: bool,
    ocTripped: bool,
    latched: bool)

  const DEFAULT_VOLTAGE_MAX := 60.0
  const DEFAULT_CURRENT_MAX := 10.0
  const CHANNEL_MIN := 0.0
  const PROTECTION_MIN := 0.0
  const DEFAULT_LOAD := Load(Ohms(1000.0), 0.0, 10.0)

  function Fresh(id: int, load: Load): Channel {
    Channel(id, DEFAULT_VOLTAGE_MAX, DEFAULT_CURRENT_MAX, 0.0, 0.0, DEFAULT_VOLTAGE_MAX, false, DEFAULT_CURRENT_MAX, false,
            false, false, load, NOTHING, false, false, false)
  }

  /** A reset keeps the id, the limits, the load and the sense mode. */
  function ResetChannel(c: Channel): Channel {
    Fresh(c.channelId, c.load).(
      voltageMax := c.voltageMax, currentMax := c.currentMax, remoteSense := c.remoteSense,
      ovpLevel := c.voltageMax, ocpLevel := c.currentMax)
  }

  // ---- An update ----

  /** The circuit as the channel's settings determine it. */
  function CircuitOf(c: Channel): Circuit {
    Circuit(c.voltageSetpoint, c.currentLimit, c.remoteSense, c.load)
  }

  function Sensed(c: Channel): real {
    SensedVoltage(CircuitOf(c), c.reading)
  }

  datatype Update = Update(channel: Channel, errors: seq<ScpiError>)

  /** What one update makes of a channel, and the errors it reports. */
  function Settle(c: Channel): Update {
    if !c.outputEnabled || c.latched then Update(c.(reading := NOTHING), [])
    else
      var d := c.(reading := Drive(CircuitOf(c)));
      if d.ovpEnabled && Sensed(d) > d.ovpLevel then
        Update(d.(latched := true, outputEnabled := false, ovTripped := true, reading := NOTHING), [OvervoltageProtectionTripped])
      else if d.ocpEnabled && Abs(d.reading.current) > d.ocpLevel then
        Update(d.(latched := true, outputEnabled := false, ocTripped := true, reading := NOTHING), [OvercurrentProtectionTripped])
      else Update(d, [])
  }

  // ---- What holds of every reachable channel ----

  predicate InLimits(c: Channel) {
    && 0.0 <= c.voltageSetpoint <= c.ovpLevel <= c.voltageMax
    && 0.0 <= c.currentLimit <= c.ocpLevel <= c.currentMax
  }

  /** The latch is set exactly when one trip flag is, and then the output is off. */
  predicate LatchConsistent(c: Channel) {
    && (c.latched <==> c.ovTripped != c.ocTripped)
    && !(c.ovTripped && c.ocTripped)
    && (c.latched ==> !c.outputEnabled)
  }

  /** Another update would change nothing and report nothing. */
  predicate Settled(c: Channel) {
    Settle(c) == Update(c, [])
  }

  lemma SettleKeepsInvariants(c: Channel)
    requires InLimits(c) && LatchConsistent(c)
    ensures InLimits(Settle(c).channel) && LatchConsistent(Settle(c).channel)
  {}

  /** Updating twice is updating once. */
  lemma SettleSettles(c: Channel)
    requires LatchConsistent(c)
    ensures Settled(Settle(c).channel)
  {
    assert CircuitOf(Settle(c).channel) == CircuitOf(c);
  }

  lemma ResetIsSettled(c: Channel)
    requires c.voltageMax >= 0.0 && c.currentMax >= 0.0
    ensures InLimits(ResetChannel(c)) && LatchConsistent(ResetChannel(c)) && Settled(ResetChannel(c))
  {}

  /** A settled channel that is off shows nothing; one that is on shows its circuit and
      violates no enabled protection. */
  lemma SettledMeansSafe(c: Channel)
    requires Settled(c)
    ensures !c.outputEnabled || c.latched ==> c.reading == NOTHING
    ensures c.outputEnabled && !c.latched ==>
              && c.reading == Drive(CircuitOf(c)) && c.reading.mode != Off
              && (c.ovpEnabled ==> Sensed(c) <= c.ovpLevel)
              && (c.ocpEnabled ==> Abs(c.reading.current) <= c.ocpLevel)
  {}

  // ---- When protection trips ----

  predicate TripsOvp(c: Channel) {
    !c.ovTripped && Settle(c).channel.ovTripped
  }

  predicate TripsOcp(c: Channel) {
    !c.ocTripped && Settle(c).channel.ocTripped
  }

  /** At the current limit, a total resistance of zero or less lifts the load above the
      overvoltage level. */
  predicate LiftsLoad(c: Channel) {
    var r := TotalResistance(CircuitOf(c));
    r.Ohms? && r.ohms <= 0.0 && c.currentLimit * r.ohms + c.load.emf > c.ovpLevel
  }

  /** The back EMF drives a current beyond the overcurrent level into the supply. */
  predicate FeedsBack(c: Channel) {
    match TotalResistance(CircuitOf(c))
    case OpenCircuit => false
    case Ohms(r) =>
      if r > 0.0 then c.load.emf > c.voltageSetpoint + c.ocpLevel * r
      else r < 0.0 && c.load.emf < c.voltageSetpoint + c.ocpLevel * r
  }

  lemma SensedAboveLevelIff(c: Channel)
    requires InLimits(c)
    ensures SensedVoltage(CircuitOf(c), Drive(CircuitOf(c))) > c.ovpLevel <==> LiftsLoad(c)
  {
    var circuit := CircuitOf(c);
    match TotalResistance(circuit)
    case OpenCircuit => OpenCircuitIsConstantVoltage(circuit);
    case Ohms(r) =>
      if r > 0.0 {
        SensedVoltageAtMostSetpoint(circuit);
      } else if r == 0.0 {
        NoResistance(circuit);
      } else {
        NegativeResistance(circuit);
      }
  }

  lemma CurrentAboveLevelIff(c: Channel)
    requires InLimits(c)
    ensures Abs(Drive(CircuitOf(c)).current) > c.ocpLevel <==> FeedsBack(c)
    ensures FeedsBack(c) ==> !LiftsLoad(c)
  {
    var circuit := CircuitOf(c);
    match TotalResistance(circuit)
    case OpenCircuit => OpenCircuitIsConstantVoltage(circuit);
    case Ohms(r) =>
      if r > 0.0 {
        BackFeedIff(circuit, c.ocpLevel);
      } else if r == 0.0 {
        NoResistance(circuit);
      } else {
        NegativeResistance(circuit);
        NegativeFeedback(Drive(circuit).current, c.currentLimit, c.ocpLevel, r, c.voltageSetpoint, c.load.emf);
      }
  }

  lemma NegativeFeedback(current: real, limit: real, level: real, r: real, setpoint: real, emf: real)
    requires 0.0 <= limit <= level && r < 0.0
    requires if limit * r + emf <= setpoint then current * r == setpoint - emf && current <= limit else current == limit
    ensures Abs(current) > level <==> emf < setpoint + level * r
    ensures emf < setpoint + level * r ==> limit * r + emf <= setpoint
  {
    CompareNegative(current, -level, r);
    CompareNegative(0.0, level, r);
    CompareNegative(0.0, limit, r);
    assert -level * r == -(level * r);
  }

  /** Overvoltage protection trips exactly when it is on, the output is on, and the load has a
      total resistance of zero or less that lifts it above the level at the current limit; so
      never in constant-voltage mode. */
  lemma OvpTripsIff(c: Channel)
    requires InLimits(c) && LatchConsistent(c)
    ensures TripsOvp(c) <==> c.outputEnabled && c.ovpEnabled && LiftsLoad(c)
    ensures TripsOvp(c) ==> Drive(CircuitOf(c)).mode == CC
  {
    SensedAboveLevelIff(c);
  }

  /** Overcurrent protection trips exactly when it is on, the output is on, and the back EMF feeds
      more than the level back into the supply; so never on current that the supply delivers, on
      a load without resistance, on an open circuit, or together with overvoltage. */
  lemma OcpTripsIff(c: Channel)
    requires InLimits(c) && LatchConsistent(c)
    ensures TripsOcp(c) <==> c.outputEnabled && c.ocpEnabled && FeedsBack(c)
    ensures TripsOcp(c) ==> Drive(CircuitOf(c)).current < -c.ocpLevel <= 0.0
    ensures !(TripsOvp(c) && TripsOcp(c))
  {
    SensedAboveLevelIff(c);
    CurrentAboveLevelIff(c);
    CurrentIsLimited(c);
  }

  lemma CurrentIsLimited(c: Channel)
    requires InLimits(c)
    ensures Drive(CircuitOf(c)).current <= c.ocpLevel
  {
    if c.load.resistance.OpenCircuit? {
      OpenCircuitIsConstantVoltage(CircuitOf(c));
    } else {
      DrivenCircuitObeysOhm(CircuitOf(c));
    }
  }

  /** Both protections can trip: overvoltage on a negative resistance, overcurrent on a battery. */
  lemma BothProtectionsCanTrip()
    ensures var base := Fresh(1, DEFAULT_LOAD).(outputEnabled := true, currentLimit := 1.0, remoteSense := true);
            && TripsOvp(base.(ovpEnabled := true, load := Load(Ohms(-10.0), 100.0, 0.0)))
            && TripsOcp(base.(ocpEnabled := true, load := Load(Ohms(5.0), 100.0, 0.0)))
  {
    assert (0.0 - 100.0) / -10.0 == 10.0;
    assert (0.0 - 100.0) / 5.0 == -20.0;
  }
}
