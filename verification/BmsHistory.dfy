/** What the battery daemon's state says about its history: every latched or commanded quantity is traced
    to the events that set it, and a reset leaves no trace of what came before but the physics. */
module BmsHistory {
  import opened BatteryModel
  import opened BmsRuns
  import opened BmsStateMachine
  import opened Reals

  /** Where a run stands after its last event. */
  lemma LastEvent(es: seq<Event>, before: seq<Event>, e: Event)
    requires es == before + [e]
    ensures Run(POWER_ON, es) == Apply(Run(POWER_ON, before), e)
  {
    RunConcat(POWER_ON, before, [e]);
    assert [e][1..] == [];
  }

  /** Event k has had no reset after it. */
  predicate SinceReset(es: seq<Event>, k: nat) { k < |es| && ResetEvent !in es[k + 1..] }

  lemma SinceResetExtends(es: seq<Event>, before: seq<Event>, e: Event, k: nat)
    requires es == before + [e] && k < |before|
    ensures SinceReset(es, k) <==> SinceReset(before, k) && e != ResetEvent
  {
    assert es[k + 1..] == before[k + 1..] + [e];
  }

  // ----- The vent -----

  predicate BlocksAt(es: seq<Event>, k: nat) { SinceReset(es, k) && es[k] == BlockCooling }

  /** The vent is blocked exactly when some blocking command has had no reset after it. */
  lemma {:induction false} VentBlockedIff(es: seq<Event>)
    ensures Run(POWER_ON, es).bat.blockCooling <==> exists k: nat :: BlocksAt(es, k)
    decreases |es|
  {
    if es != [] {
      var before, e := es[..|es| - 1], es[|es| - 1];
      LastEvent(es, before, e);
      VentBlockedIff(before);
      forall k: nat | k < |before| ensures BlocksAt(es, k) <==> BlocksAt(before, k) && e != ResetEvent {
        SinceResetExtends(es, before, e, k);
      }
      if e == BlockCooling { assert BlocksAt(es, |before|); }
    }
  }

  // ----- The load -----

  /** The current last commanded, zero if none has been since power-on or the last reset. */
  function LastLoad(es: seq<Event>): real {
    if es == [] then 0.0
    else
      match es[|es| - 1]
      case SetCurrent(v) => v
      case ResetEvent => 0.0
      case _ => LastLoad(es[..|es| - 1])
  }

  /** The load is the current last commanded: neither a tick nor a fault changes it. */
  lemma {:induction false} LoadIsLastSet(es: seq<Event>)
    ensures Run(POWER_ON, es).bat.iLoad == LastLoad(es)
    decreases |es|
  {
    if es != [] {
      LastEvent(es, es[..|es| - 1], es[|es| - 1]);
      LoadIsLastSet(es[..|es| - 1]);
    }
  }

  // ----- The warning -----

  /** Event k is an integrating tick that left the cell at 60 degrees or the accumulator at 875 J. */
  predicate WarnsAt(es: seq<Event>, k: nat) {
    && SinceReset(es, k) && es[k] == TickEvent && Integrates(Run(POWER_ON, es[..k]))
    && var d := Run(POWER_ON, es[..k + 1]); (d.bat.tCell >= 60.0 || d.fsm.joule >= 875.0)
  }

  /** The warning flag is up exactly when a tick since the last reset raised it. */
  lemma {:induction false} WarnedIff(es: seq<Event>)
    ensures Run(POWER_ON, es).fsm.warned <==> exists k: nat :: WarnsAt(es, k)
    decreases |es|
  {
    if es != [] {
      var before, e := es[..|es| - 1], es[|es| - 1];
      LastEvent(es, before, e);
      WarnedIff(before);
      forall k: nat | k < |before| ensures WarnsAt(es, k) <==> WarnsAt(before, k) && e != ResetEvent {
        SinceResetExtends(es, before, e, k);
        assert es[..k] == before[..k] && es[..k + 1] == before[..k + 1];
      }
      assert es[..|before|] == before && es[..|before| + 1] == es && es[|before| + 1..] == [];
      WarnedStep(Run(POWER_ON, before), e);
      assert WarnsAt(es, |before|) <==> RaisesWarning(Run(POWER_ON, before), e);
    }
  }

  predicate RaisesWarning(d: Daemon, e: Event) {
    e == TickEvent && Integrates(d) && (Tick(d).bat.tCell >= 60.0 || Tick(d).fsm.joule >= 875.0)
  }

  lemma WarnedStep(d: Daemon, e: Event)
    ensures Apply(d, e).fsm.warned <==> (d.fsm.warned && e != ResetEvent) || RaisesWarning(d, e)
  {}

  // ----- The fault report -----

  /** Every fault is the work of one tick since the last reset, found outside FAULT; the report carries
      the load that tick found. */
  lemma {:induction false} FaultReportsItsTick(es: seq<Event>) returns (k: nat)
    requires Run(POWER_ON, es).fsm.state == FAULT
    ensures SinceReset(es, k) && es[k] == TickEvent
    ensures Run(POWER_ON, es[..k]).fsm.state != FAULT && Run(POWER_ON, es[..k + 1]).fsm == Run(POWER_ON, es).fsm
    ensures Run(POWER_ON, es).fsm.detail.Detail?
    ensures Run(POWER_ON, es).fsm.detail.iLoad == Run(POWER_ON, es[..k]).bat.iLoad
    decreases |es|
  {
    if es == [] { assert false; }
    var before, e := es[..|es| - 1], es[|es| - 1];
    LastEvent(es, before, e);
    if Run(POWER_ON, before).fsm.state == FAULT {
      k := FaultReportsItsTick(before);
      SinceResetExtends(es, before, e, k);
      assert es[..k] == before[..k] && es[..k + 1] == before[..k + 1];
    } else {
      k := |before|;
      assert es[..k] == before && es[..k + 1] == es && es[k + 1..] == [];
    }
  }

  /** The reported code is decided by the reported quantities and the accumulator: overcurrent first, then
      temperature, then charge, and the energy limit last. */
  predicate CodeExplained(code: FaultCode, soc: real, tCell: real, load: real, joule: real) {
    && (code == OVERCURRENT <==> Abs(load) > 250.0)
    && (code == UNDERVOLTAGE <==> Abs(load) <= 250.0 && tCell <= 80.0 && soc < 0.05)
    && (code == OVERVOLTAGE <==> Abs(load) <= 250.0 && tCell <= 80.0 && soc > 0.95 && load < 0.0)
    && (code == OVERTEMPERATURE ==> tCell > 80.0 || joule >= 1375.0)
    && code != NONE
  }

  predicate ReportExplained(d: Daemon) {
    d.fsm.state == FAULT ==>
      && d.fsm.detail.Detail?
      && CodeExplained(d.fsm.faultCode, d.fsm.detail.soc, d.fsm.detail.tCell, d.fsm.detail.iLoad, d.fsm.joule)
  }

  lemma ExplainedConclude(b: Battery, f: Fsm)
    requires Abs(b.iLoad) <= I_MAX
    ensures f.state != FAULT ==> ReportExplained(Conclude(b, f))
  {}

  lemma {:induction false} ReportIsExplained(es: seq<Event>)
    ensures ReportExplained(Run(POWER_ON, es))
    decreases |es|
  {
    if es != [] {
      var before, e := es[..|es| - 1], es[|es| - 1];
      LastEvent(es, before, e);
      ReportIsExplained(before);
      var d := Run(POWER_ON, before);
      if e == TickEvent && Integrates(d) { ExplainedConclude(Integrated(d.bat), d.fsm); }
    }
  }

  // ----- Reset -----

  predicate SamePhysics(a: Battery, b: Battery) {
    a.soc == b.soc && a.vRc == b.vRc && a.vTerminal == b.vTerminal && a.tCell == b.tCell
  }

  /** A reset changes none of the four physical quantities. */
  lemma ResetKeepsPhysics(es: seq<Event>)
    ensures SamePhysics(Run(POWER_ON, es + [ResetEvent]).bat, Run(POWER_ON, es).bat)
  {
    LastEvent(es + [ResetEvent], es, ResetEvent);
  }

  /** A reset forgets everything but those: two histories that agree on the four physical quantities
      and end in a reset run alike under every continuation. */
  lemma ResetForgets(a: seq<Event>, b: seq<Event>, es: seq<Event>)
    requires SamePhysics(Run(POWER_ON, a).bat, Run(POWER_ON, b).bat)
    ensures Run(POWER_ON, a + [ResetEvent] + es) == Run(POWER_ON, b + [ResetEvent] + es)
  {
    RunConcat(POWER_ON, a + [ResetEvent], es);
    RunConcat(POWER_ON, b + [ResetEvent], es);
    LastEvent(a + [ResetEvent], a, ResetEvent);
    LastEvent(b + [ResetEvent], b, ResetEvent);
  }

  // ----- Cooling -----

  /** Distance of the cell from the temperature that the present current sustains with an open vent. */
  function ThermalDistance(b: Battery): real { b.tCell - (25.0 + 0.001 * (b.iLoad * b.iLoad)) }

  lemma TickCools(d: Daemon)
    requires Tick(d).fsm.state != FAULT && !d.bat.blockCooling
    ensures Tick(d).bat.iLoad == d.bat.iLoad && !Tick(d).bat.blockCooling
    ensures Scaled(ThermalDistance(Tick(d).bat), THERMAL_DAMPING, ThermalDistance(d.bat))
  {
    CoolingStep(d.bat.tCell, d.bat.iLoad);
  }

  lemma CoolingStep(t: real, i: real)
    ensures NextTCell(t, i, false) - (25.0 + 0.001 * (i * i)) == THERMAL_DAMPING * (t - (25.0 + 0.001 * (i * i)))
  {}

  /** With the vent open a constant current brings the temperature towards 25 + 0.001*i^2 geometrically: n
      fault-free ticks multiply the distance by exactly THERMAL_DAMPING^n. */
  lemma {:induction false} TemperatureConvergesGeometrically(d: Daemon, n: nat)
    requires Run(d, TickRun(n)).fsm.state != FAULT && !d.bat.blockCooling
    ensures Run(d, TickRun(n)).bat.iLoad == d.bat.iLoad && !Run(d, TickRun(n)).bat.blockCooling
    ensures Scaled(ThermalDistance(Run(d, TickRun(n)).bat), Pow(THERMAL_DAMPING, n), ThermalDistance(d.bat))
  {
    if n > 0 {
      TickRunStep(d, n);
      TemperatureConvergesGeometrically(d, n - 1);
      TickCools(Run(d, TickRun(n - 1)));
      ScaledAgain(ThermalDistance(Run(d, TickRun(n)).bat), ThermalDistance(Run(d, TickRun(n - 1)).bat),
                  THERMAL_DAMPING, n, ThermalDistance(d.bat));
    }
  }

  lemma WarmStaysWarm(d: Daemon)
    requires Inv(d) && d.bat.tCell > T_AMB && !d.bat.blockCooling && Integrates(d)
    ensures Inv(Tick(d)) && Tick(d).bat.tCell > T_AMB
    ensures Stored(Tick(d).bat) - Stored(d.bat) < EventHeat(d, TickEvent)
  {
    InvTick(d);
    OpenVentLoses(d.bat.tCell, d.bat.iLoad);
    SameStored(Tick(d).bat, Integrated(d.bat));
  }

  /** With the vent open a cell above ambient stores strictly less heat than is released, over every
      fault-free run that ticks at all. */
  lemma {:induction false} OpenVentLosesHeat(d: Daemon, es: seq<Event>)
    requires Inv(d) && d.bat.tCell > T_AMB && !d.bat.blockCooling
    requires ResetFree(es) && BlockCooling !in es && TickEvent in es && FaultFree(d, es)
    ensures Stored(Run(d, es).bat) - Stored(d.bat) < HeatReleased(d, es)
    decreases |es|
  {
    var d1 := Apply(d, es[0]);
    if es[0] == TickEvent {
      WarmStaysWarm(d);
      EnergyBalance(d1, es[1..]);
    } else {
      SameStored(d.bat, d1.bat);
      OpenVentLosesHeat(d1, es[1..]);
    }
  }
}
