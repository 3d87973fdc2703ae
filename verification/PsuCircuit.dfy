/** The circuit a power-supply channel drives: a voltage source with a current limit, its probe
    leads, and a load resistor in series with a back EMF. All quantities are real numbers. */
module PsuCircuit {

  datatype Mode = Off | CV | CC

  /** A load resistor, or none at all. */
  datatype Resistance = Ohms(ohms: real) | OpenCircuit

  datatype Load = Load(resistance: Resistance, emf: real, probeResistance: real)

  datatype Circuit = Circuit(setpoint: real, limit: real, remoteSense: bool, load: Load)

  datatype Reading = Reading(terminalVoltage: real, loadVoltage: real, current: real, mode: Mode)

  const NOTHING := Reading(0.0, 0.0, 0.0, Off)

  /** The current the load would draw at the setpoint; a short circuit draws without bound. */
  datatype Demand = Amps(amps: real) | Unbounded

  function TotalResistance(c: Circuit): Resistance {
    if c.remoteSense || c.load.resistance.OpenCircuit? then c.load.resistance
    else Ohms(c.load.resistance.ohms + c.load.probeResistance)
  }

  function CurrentDemand(c: Circuit): Demand {
    match TotalResistance(c)
    case OpenCircuit => Amps(0.0)
    case Ohms(r) =>
      if r == 0.0 then (if c.setpoint - c.load.emf != 0.0 then Unbounded else Amps(0.0))
      else Amps((c.setpoint - c.load.emf) / r)
  }

  /** Constant voltage while the demand is within the current limit, constant current beyond it. */
  function Regulate(c: Circuit, demand: Demand): Reading {
    if demand.Amps? && demand.amps <= c.limit then
      var drop := demand.amps * c.load.probeResistance;
      if c.remoteSense then Reading(c.setpoint + drop, c.setpoint, demand.amps, CV)
      else Reading(c.setpoint, c.setpoint - drop, demand.amps, CV)
    else
      match c.load.resistance
      case Ohms(r) =>
        var v := c.limit * r + c.load.emf;
        Reading(v + c.limit * c.load.probeResistance, v, c.limit, CC)
      case OpenCircuit => Reading(0.0, 0.0, c.limit, CC)
  }

  function Drive(c: Circuit): Reading {
    Regulate(c, CurrentDemand(c))
  }

  function SensedVoltage(c: Circuit, r: Reading): real {
    if c.remoteSense then r.loadVoltage else r.terminalVoltage
  }

  function Abs(x: real): real {
    if x < 0.0 then -x else x
  }

  // ---- Circuit laws ----

  lemma Distribute(i: real, r: real, p: real)
    ensures i * (r + p) == i * r + i * p
  {}

  lemma DivideAndMultiply(a: real, r: real)
    requires r != 0.0
    ensures a / r * r == a
  {}

  lemma ScaleLess(a: real, b: real, r: real)
    requires a < b && r > 0.0
    ensures a * r < b * r
  {}

  /** Ohm's law across the load and across the probe leads, within the current limit, and what
      it means for the sensed voltage. */
  ghost predicate ObeysOhm(c: Circuit, d: Reading)
    requires c.load.resistance.Ohms?
  {
    && d.loadVoltage == d.current * c.load.resistance.ohms + c.load.emf
    && d.terminalVoltage - d.loadVoltage == d.current * c.load.probeResistance
    && d.current <= c.limit
    && SensedVoltage(c, d) == d.current * TotalResistance(c).ohms + c.load.emf
  }

  lemma DemandFillsGap(c: Circuit)
    requires c.load.resistance.Ohms? && CurrentDemand(c).Amps?
    ensures CurrentDemand(c).amps * TotalResistance(c).ohms == c.setpoint - c.load.emf
  {
    if TotalResistance(c).ohms != 0.0 {
      DivideAndMultiply(c.setpoint - c.load.emf, TotalResistance(c).ohms);
    }
  }

  lemma RegulatedCircuit(c: Circuit, demand: Demand)
    requires c.load.resistance.Ohms?
    requires demand.Amps? ==> demand.amps * TotalResistance(c).ohms == c.setpoint - c.load.emf
    ensures ObeysOhm(c, Regulate(c, demand))
  {
    var i := if demand.Amps? && demand.amps <= c.limit then demand.amps else c.limit;
    Distribute(i, c.load.resistance.ohms, c.load.probeResistance);
  }

  /** For a finite load, the driven circuit obeys Ohm's law and the current limit. */
  lemma DrivenCircuitObeysOhm(c: Circuit)
    requires c.load.resistance.Ohms?
    ensures ObeysOhm(c, Drive(c))
  {
    if CurrentDemand(c).Amps? {
      DemandFillsGap(c);
    }
    RegulatedCircuit(c, CurrentDemand(c));
  }

  /** With positive total resistance the supply regulates: the sensed voltage never exceeds the
      setpoint and equals it exactly in constant-voltage mode, which holds exactly when the
      load asks for no more than the current limit. */
  lemma SensedVoltageAtMostSetpoint(c: Circuit)
    requires c.load.resistance.Ohms? && TotalResistance(c).ohms > 0.0
    ensures var d, r := Drive(c), TotalResistance(c).ohms;
            && SensedVoltage(c, d) <= c.setpoint
            && (SensedVoltage(c, d) == c.setpoint <==> d.mode == CV)
            && (d.mode == CV <==> c.setpoint - c.load.emf <= c.limit * r)
  {
    DrivenCircuitObeysOhm(c);
    DemandFillsGap(c);
    var amps, r := CurrentDemand(c).amps, TotalResistance(c).ohms;
    ModeOfDemand(c, amps);
    Compare(amps, c.limit, r);
    SensedFromCurrent(Drive(c).current, amps, c.limit, r, c.load.emf, SensedVoltage(c, Drive(c)), c.setpoint);
  }

  /** The arithmetic of regulation: `amps` is the demand, `current` what flows. */
  lemma SensedFromCurrent(current: real, amps: real, limit: real, r: real, emf: real, sensed: real, setpoint: real)
    requires r > 0.0 && amps * r == setpoint - emf && sensed == current * r + emf
    requires current == if amps <= limit then amps else limit
    ensures sensed <= setpoint
    ensures sensed == setpoint <==> amps <= limit
    ensures amps <= limit <==> setpoint - emf <= limit * r
  {
    Compare(amps, limit, r);
  }

  lemma ModeOfDemand(c: Circuit, amps: real)
    requires c.load.resistance.Ohms? && CurrentDemand(c) == Amps(amps)
    ensures Drive(c).mode == CV <==> amps <= c.limit
    ensures Drive(c).current == if amps <= c.limit then amps else c.limit
  {}

  lemma Compare(i: real, j: real, r: real)
    requires r > 0.0
    ensures i <= j <==> i * r <= j * r
    ensures i < j <==> i * r < j * r
  {
    if i < j {
      ScaleLess(i, j, r);
    } else if j < i {
      ScaleLess(j, i, r);
    }
  }

  /** With negative total resistance the supply holds the setpoint exactly as long as the current
      limit, multiplied with the resistance, does not lift the load above it. */
  lemma NegativeResistance(c: Circuit)
    requires c.load.resistance.Ohms? && TotalResistance(c).ohms < 0.0
    ensures var d, r := Drive(c), TotalResistance(c).ohms;
            && (d.mode == CV <==> c.limit * r + c.load.emf <= c.setpoint)
            && SensedVoltage(c, d) == (if d.mode == CV then c.setpoint else c.limit * r + c.load.emf)
            && (d.mode == CV ==> d.current * r == c.setpoint - c.load.emf && d.current <= c.limit)
            && (d.mode != CV ==> d.current == c.limit)
  {
    DrivenCircuitObeysOhm(c);
    DemandFillsGap(c);
    var amps, r := CurrentDemand(c).amps, TotalResistance(c).ohms;
    ModeOfDemand(c, amps);
    SensedOnNegative(Drive(c).current, amps, c.limit, r, c.load.emf, SensedVoltage(c, Drive(c)), c.setpoint);
  }

  lemma SensedOnNegative(current: real, amps: real, limit: real, r: real, emf: real, sensed: real, setpoint: real)
    requires r < 0.0 && amps * r == setpoint - emf && sensed == current * r + emf
    requires current == if amps <= limit then amps else limit
    ensures amps <= limit <==> limit * r + emf <= setpoint
    ensures sensed == if amps <= limit then setpoint else limit * r + emf
  {
    CompareNegative(amps, limit, r);
  }

  lemma CompareNegative(i: real, j: real, r: real)
    requires r < 0.0
    ensures i <= j <==> j * r <= i * r
    ensures i < j <==> j * r < i * r
  {
    Compare(i, j, -r);
    assert i * -r == -(i * r) && j * -r == -(j * r);
  }

  /** Without any resistance the sensed voltage is the EMF, and the current is none or the limit. */
  lemma NoResistance(c: Circuit)
    requires c.load.resistance.Ohms? && TotalResistance(c).ohms == 0.0
    ensures var d := Drive(c);
            && SensedVoltage(c, d) == c.load.emf
            && d.current == (if c.setpoint != c.load.emf || c.limit < 0.0 then c.limit else 0.0)
  {
    DrivenCircuitObeysOhm(c);
  }

  /** An open circuit is always driven at the setpoint and carries no current. */
  lemma OpenCircuitIsConstantVoltage(c: Circuit)
    requires c.load.resistance.OpenCircuit? && c.limit >= 0.0
    ensures Drive(c) == Reading(c.setpoint, c.setpoint, 0.0, CV)
  {}

  /** With positive total resistance, the current exceeds `level` in magnitude only backwards:
      exactly when the back EMF exceeds the setpoint by more than `level` across the resistance. */
  lemma BackFeedIff(c: Circuit, level: real)
    requires 0.0 <= c.limit <= level
    requires c.load.resistance.Ohms? && TotalResistance(c).ohms > 0.0
    ensures Abs(Drive(c).current) > level <==> c.load.emf > c.setpoint + level * TotalResistance(c).ohms
  {
    var r := TotalResistance(c).ohms;
    DemandFillsGap(c);
    Compare(CurrentDemand(c).amps, -level, r);
    assert -level * r == -(level * r);
  }
}
