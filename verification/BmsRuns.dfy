/** Whole runs of the battery daemon: 1 kHz ticks of the physics loop (main.cpp) interleaved in any
    order with the commands the telemetry thread injects (TelemetryServer.cpp, handle_command). */
module BmsRuns {
  import opened Reals
  import opened BatteryModel
  import opened BmsStateMachine

  datatype Event = TickEvent | SetCurrent(amps: real) | BlockCooling | ResetEvent

  function Apply(d: Daemon, e: Event): Daemon {
    match e
    case TickEvent => Tick(d)
    case SetCurrent(v) => d.(bat := d.bat.(iLoad := v))
    case BlockCooling => d.(bat := d.bat.(blockCooling := true))
    case ResetEvent => ResetAll(d)
  }

  function Run(d: Daemon, es: seq<Event>): Daemon
    decreases |es|
  {
    if es == [] then d else Run(Apply(d, es[0]), es[1..])
  }

  predicate ResetFree(es: seq<Event>) { ResetEvent !in es }

  /** Number of ticks in a run. */
  function Ticks(es: seq<Event>): nat {
    if es == [] then 0 else (if es[0] == TickEvent then 1 else 0) + Ticks(es[1..])
  }

  /** The machine is out of FAULT at the start and after every event. */
  predicate FaultFree(d: Daemon, es: seq<Event>)
    decreases |es|
  {
    d.fsm.state != FAULT && (es != [] ==> FaultFree(Apply(d, es[0]), es[1..]))
  }

  lemma {:induction false} RunConcat(d: Daemon, a: seq<Event>, b: seq<Event>)
    ensures Run(d, a + b) == Run(Run(d, a), b)
    decreases |a|
  {
    if a == [] {
      assert a + b == b;
    } else {
      assert (a + b)[1..] == a[1..] + b;
      RunConcat(Apply(d, a[0]), a[1..], b);
    }
  }

  // ----- What every reachable state satisfies -----

  /** The latched report: FAULT, a fault code and a detail line always come together, and the line
      still describes the battery (the load current alone may have been overwritten since). */
  predicate ReportConsistent(d: Daemon) {
    if d.fsm.state == FAULT then
      && d.fsm.faultCode != NONE
      && d.fsm.detail.Detail?
      && d.fsm.detail == Detail(d.fsm.faultCode, d.bat.soc, d.bat.tCell, d.bat.vTerminal, d.fsm.detail.iLoad)
      && (d.fsm.faultCode == OVERCURRENT <==> Abs(d.fsm.detail.iLoad) > I_MAX)
    else d.fsm.faultCode == NONE && d.fsm.detail == NoDetail
  }

  predicate Inv(d: Daemon) {
    && 0.0 <= d.bat.soc <= 1.0
    && -1.25 <= d.bat.vRc <= 1.25
    && T_AMB <= d.bat.tCell
    && d.bat.fault == NONE
    && 0.0 <= d.fsm.joule < E_FAULT + 0.625
    && (d.fsm.joule >= E_FAULT ==> d.fsm.state == FAULT)
    && (d.fsm.joule >= E_WARN ==> d.fsm.warned)
    && ReportConsistent(d)
  }

  lemma TickHeatRange(i: real)
    ensures 0.0 <= TickHeat(i)
    ensures Abs(i) <= I_MAX ==> TickHeat(i) <= 0.625
    ensures Abs(i) >= IDLE_THRESHOLD ==> TickHeat(i) >= 0.00025
  {
    SquareNonNegative(i);
    if Abs(i) <= I_MAX { SquareBound(i, I_MAX); }
    if Abs(i) >= IDLE_THRESHOLD { assert (Abs(i) - 5.0) * (Abs(i) + 5.0) >= 0.0; }
  }

  lemma InvTick(d: Daemon)
    requires Inv(d)
    ensures Inv(Tick(d))
  {
    if Integrates(d) {
      var b := Integrated(d.bat);
      VRcBand(d.bat.vRc, d.bat.iLoad);
      HeatBalance(d.bat.tCell, d.bat.iLoad, d.bat.blockCooling);
      TickHeatRange(d.bat.iLoad);
    }
  }

  lemma {:induction false} InvRun(d: Daemon, es: seq<Event>)
    requires Inv(d)
    ensures Inv(Run(d, es))
    decreases |es|
  {
    if es != [] {
      if es[0] == TickEvent { InvTick(d); }
      InvRun(Apply(d, es[0]), es[1..]);
    }
  }

  /** From power-on, under any interleaving of ticks and commands: the state of charge is a fraction,
      the RC voltage stays within 1.25 V, the cell is never colder than ambient, the accumulator never
      exceeds the fault limit by one tick's heat, the energy fault and warning are never missed, and
      the fault report is consistent. */
  lemma ReachableStates(es: seq<Event>)
    ensures Inv(Run(POWER_ON, es))
  {
    InvRun(POWER_ON, es);
  }

  /** `BatteryState.fault` is never written when a fault is entered, so it agrees with the machine's
      fault code exactly outside FAULT. */
  lemma BatteryFaultMirrorsExactlyOutsideFault(es: seq<Event>)
    ensures var d := Run(POWER_ON, es);
            d.bat.fault == d.fsm.faultCode <==> d.fsm.state != FAULT
  {
    InvRun(POWER_ON, es);
  }

  // ----- The latch -----

  /** A latched fault outlives every reset-free run, together with its report and every physical
      quantity. */
  lemma {:induction false} OnlyResetLeavesFault(d: Daemon, es: seq<Event>)
    requires d.fsm.state == FAULT && ResetFree(es)
    ensures var r := Run(d, es);
            && r.fsm == d.fsm && r.bat.soc == d.bat.soc && r.bat.vRc == d.bat.vRc
            && r.bat.tCell == d.bat.tCell && r.bat.vTerminal == d.bat.vTerminal
    decreases |es|
  {
    if es != [] { OnlyResetLeavesFault(Apply(d, es[0]), es[1..]); }
  }

  /** Without a reset, being out of FAULT at the end means never having been in it. */
  lemma {:induction false} FaultFreeIffEndsOutsideFault(d: Daemon, es: seq<Event>)
    requires ResetFree(es)
    ensures FaultFree(d, es) <==> Run(d, es).fsm.state != FAULT
    decreases |es|
  {
    if d.fsm.state == FAULT {
      OnlyResetLeavesFault(d, es);
    } else if es != [] {
      FaultFreeIffEndsOutsideFault(Apply(d, es[0]), es[1..]);
    }
  }

  // ----- Operating states -----

  /** After a fault-free tick an active state matches the sign of the current, and IDLE is left only
      for the class of the current. */
  lemma TickLandsInClass(d: Daemon)
    requires Integrates(d) && Tick(d).fsm.state != FAULT
    ensures var s := Tick(d).fsm.state;
            && (s == DISCHARGING ==> d.bat.iLoad > 5.0)
            && (s == CHARGING ==> d.bat.iLoad < -5.0)
            && (d.fsm.state == IDLE ==> s == ClassOf(d.bat.iLoad))
            && !(d.fsm.state == DISCHARGING && s == CHARGING)
            && !(d.fsm.state == CHARGING && s == DISCHARGING)
  {}

  predicate Active(s: BmsState) { s == DISCHARGING || s == CHARGING }

  /** An active state always answers the current that the last tick found: there is a last tick, no later
      reset, and its current is of the state's class. */
  lemma {:induction false} ActiveStateAnswersLastTick(es: seq<Event>) returns (k: nat)
    requires Active(Run(POWER_ON, es).fsm.state)
    ensures k < |es| && es[k] == TickEvent
    ensures TickEvent !in es[k + 1..] && ResetEvent !in es[k + 1..]
    ensures var i := Run(POWER_ON, es[..k]).bat.iLoad;
            if Run(POWER_ON, es).fsm.state == DISCHARGING then i > 5.0 else i < -5.0
    decreases |es|
  {
    if es == [] { assert false; }
    var before, e := es[..|es| - 1], es[|es| - 1];
    var d := Run(POWER_ON, before);
    assert es == before + [e] && [e][1..] == [];
    RunConcat(POWER_ON, before, [e]);
    if e == TickEvent {
      k := |es| - 1;
      TickLandsInClass(d);
    } else {
      k := ActiveStateAnswersLastTick(before);
      assert before[..k] == es[..k] && es[k + 1..] == before[k + 1..] + [e];
    }
  }

  /** Two fault-free ticks at one current always land in the class of that current. */
  lemma TwoTicksSettle(d: Daemon)
    requires FaultFree(d, [TickEvent, TickEvent])
    ensures var s := Run(d, [TickEvent, TickEvent]).fsm.state;
            s == if d.bat.iLoad > 5.0 then DISCHARGING else if d.bat.iLoad < -5.0 then CHARGING else IDLE
  {
    var d1 := Tick(d);
    assert [TickEvent, TickEvent][1..] == [TickEvent];
    assert [TickEvent][1..] == [];
    assert Run(d, [TickEvent, TickEvent]) == Run(d1, [TickEvent]) == Tick(d1);
    assert FaultFree(d1, [TickEvent]) && FaultFree(Tick(d1), []);
  }

  /** DISCHARGING and CHARGING are never adjacent: every run from one to the other passes through
      IDLE or FAULT, and through IDLE if it is fault-free. */
  lemma {:induction false} SwingPassesThroughIdle(d: Daemon, es: seq<Event>) returns (k: nat)
    requires d.fsm.state in {DISCHARGING, CHARGING}
    requires Run(d, es).fsm.state in {DISCHARGING, CHARGING}
    requires Run(d, es).fsm.state != d.fsm.state
    ensures k < |es| && Run(d, es[..k]).fsm.state == IDLE
    decreases |es|
  {
    var d1 := Apply(d, es[0]);
    if d1.fsm.state == IDLE {
      k := 1;
      assert es[..1][1..] == [];
    } else if d1.fsm.state == FAULT {
      var j := FaultIsLeftToIdle(d1, es[1..]);
      k := j + 1;
      assert es[..k][1..] == es[1..][..j];
    } else {
      var j := SwingPassesThroughIdle(d1, es[1..]);
      k := j + 1;
      assert es[..k][1..] == es[1..][..j];
    }
  }

  lemma {:induction false} FaultIsLeftToIdle(d: Daemon, es: seq<Event>) returns (k: nat)
    requires d.fsm.state == FAULT && Run(d, es).fsm.state in {DISCHARGING, CHARGING}
    ensures k < |es| && Run(d, es[..k]).fsm.state == IDLE
    decreases |es|
  {
    var d1 := Apply(d, es[0]);
    if d1.fsm.state == IDLE {
      k := 1;
      assert es[..1][1..] == [];
    } else {
      var j := FaultIsLeftToIdle(d1, es[1..]);
      k := j + 1;
      assert es[..k][1..] == es[1..][..j];
    }
  }

  // ----- Charge -----

  /** Sum of the load current over the ticks of a run. */
  function CurrentSum(d: Daemon, es: seq<Event>): real
    decreases |es|
  {
    if es == [] then 0.0
    else (if es[0] == TickEvent then d.bat.iLoad else 0.0) + CurrentSum(Apply(d, es[0]), es[1..])
  }

  /** Coulomb counting is exact on every fault-free run: a tick in which the clamp changes the state
      of charge always raises a fault. */
  lemma {:induction false} ChargeConservation(d: Daemon, es: seq<Event>)
    requires 0.0 <= d.bat.soc <= 1.0 && FaultFree(d, es)
    ensures Run(d, es).bat.soc == d.bat.soc - CHARGE_PER_AMP * CurrentSum(d, es)
    ensures 0.0 <= Run(d, es).bat.soc <= 1.0
    decreases |es|
  {
    if es != [] {
      var d1 := Apply(d, es[0]);
      if es[0] == TickEvent { ClampRaisesFault(d); }
      ChargeConservation(d1, es[1..]);
      var c := if es[0] == TickEvent then d.bat.iLoad else 0.0;
      var sum := CurrentSum(d1, es[1..]);
      assert CHARGE_PER_AMP * (c + sum) == CHARGE_PER_AMP * c + CHARGE_PER_AMP * sum;
    }
  }

  lemma ClampRaisesFault(d: Daemon)
    requires 0.0 <= d.bat.soc <= 1.0 && d.fsm.state != FAULT && Tick(d).fsm.state != FAULT
    ensures Tick(d).bat.soc == d.bat.soc - CHARGE_PER_AMP * d.bat.iLoad
    ensures 0.0 <= Tick(d).bat.soc <= 1.0
  {
    assert CHARGE_PER_AMP > 0.0;
  }

  // ----- Energy -----

  /** Joule heat released by one event. */
  function EventHeat(d: Daemon, e: Event): real {
    if e == TickEvent && Integrates(d) then TickHeat(d.bat.iLoad) else 0.0
  }

  /** Joule heat released over the integrating ticks of a run. */
  function HeatReleased(d: Daemon, es: seq<Event>): real
    decreases |es|
  {
    if es == [] then 0.0
    else EventHeat(d, es[0]) + HeatReleased(Apply(d, es[0]), es[1..])
  }

  /** Between resets the accumulator is a ledger of the heat released. */
  lemma {:induction false} JouleLedger(d: Daemon, es: seq<Event>)
    requires ResetFree(es)
    ensures Run(d, es).fsm.joule == d.fsm.joule + HeatReleased(d, es)
    decreases |es|
  {
    if es != [] { JouleLedger(Apply(d, es[0]), es[1..]); }
  }

  lemma EventHeatBalance(d: Daemon, e: Event)
    requires Inv(d) && e != ResetEvent
    ensures HeatAccounted(Stored(d.bat), Stored(Apply(d, e).bat), EventHeat(d, e), d.bat.blockCooling)
  {
    var d1 := Apply(d, e);
    if e == TickEvent && Integrates(d) {
      StoredHeat(d.bat);
      SameStored(d1.bat, Integrated(d.bat));
    } else {
      SameStored(d.bat, d1.bat);
    }
  }

  lemma SameStored(b: Battery, c: Battery)
    requires b.tCell == c.tCell
    ensures Stored(b) == Stored(c)
  {}

  /** Energy balance between resets: the heat stored in the cell never grows by more than the heat
      released, and by exactly that when the cooling was blocked throughout. */
  lemma {:induction false} EnergyBalance(d: Daemon, es: seq<Event>)
    requires Inv(d) && ResetFree(es)
    ensures HeatAccounted(Stored(d.bat), Stored(Run(d, es).bat), HeatReleased(d, es), d.bat.blockCooling)
    decreases |es|
  {
    if es != [] {
      var d1 := Apply(d, es[0]);
      if es[0] == TickEvent { InvTick(d); }
      EnergyBalance(d1, es[1..]);
      EventHeatBalance(d, es[0]);
    }
  }

  /** After any history and a reset, no reset-free run can heat the cell by more than
      1375.625 / 25000 degrees. */
  lemma TemperatureCeiling(history: seq<Event>, es: seq<Event>)
    requires ResetFree(es)
    ensures var d := ResetAll(Run(POWER_ON, history));
            T_AMB <= Run(d, es).bat.tCell < d.bat.tCell + 1375.625 / 25000.0
  {
    InvRun(POWER_ON, history);
    var d := ResetAll(Run(POWER_ON, history));
    InvRun(d, es);
    EnergyBalance(d, es);
    JouleLedger(d, es);
  }

  // ----- Heat across resets -----

  function Resets(es: seq<Event>): nat {
    if es == [] then 0 else (if es[0] == ResetEvent then 1 else 0) + Resets(es[1..])
  }

  /** Stored heat not accounted for by the accumulator, at most `limit`. */
  predicate HeatWithin(d: Daemon, limit: real) { Stored(d.bat) - d.fsm.joule <= limit }

  lemma HeatAcrossEvent(d: Daemon, e: Event, limit: real)
    requires Inv(d) && HeatWithin(d, limit)
    ensures Inv(Apply(d, e))
    ensures HeatWithin(Apply(d, e), if e == ResetEvent then limit + 1375.625 else limit)
  {
    if e == TickEvent { InvTick(d); }
    if e == ResetEvent { SameStored(d.bat, ResetAll(d).bat); } else { EventHeatBalance(d, e); }
  }

  /** Only a reset lets stored heat escape the accumulator, and each lets less than 1375.625 J escape. */
  lemma {:induction false} HeatAcrossResets(d: Daemon, es: seq<Event>, limit: real)
    requires Inv(d) && HeatWithin(d, limit)
    ensures HeatWithin(Run(d, es), limit + 1375.625 * Resets(es) as real)
    decreases |es|
  {
    if es != [] {
      HeatAcrossEvent(d, es[0], limit);
      HeatAcrossResets(Apply(d, es[0]), es[1..], if es[0] == ResetEvent then limit + 1375.625 else limit);
    }
  }

  /** Over any run from power-on the cell heats by less than 0.055025 degrees per reset, counting
      power-on as one. */
  lemma WholeRunCeiling(es: seq<Event>)
    ensures Run(POWER_ON, es).bat.tCell < T_AMB + 0.055025 * (Resets(es) + 1) as real
  {
    HeatAcrossResets(POWER_ON, es, M_CP * T_AMB);
    InvRun(POWER_ON, es);
  }

  /** An over-temperature report is still borne out by the temperature or the accumulator. */
  predicate Overheated(d: Daemon) {
    d.fsm.faultCode == OVERTEMPERATURE ==> d.bat.tCell > T_FAULT || d.fsm.joule >= E_FAULT
  }

  lemma OverheatedConclude(b: Battery, f: Fsm)
    requires f.faultCode == NONE
    ensures Overheated(Conclude(b, f))
  {}

  lemma {:induction false} OverheatedRun(d: Daemon, es: seq<Event>)
    requires Inv(d) && Overheated(d)
    ensures Overheated(Run(d, es))
    decreases |es|
  {
    if es != [] {
      if es[0] == TickEvent {
        InvTick(d);
        OverheatedConclude(Integrated(d.bat), d.fsm.(faultCode := NONE));
      }
      OverheatedRun(Apply(d, es[0]), es[1..]);
    }
  }

  /** The 80 degree guard cannot fire in any run of fewer than 999 resets: OVERTEMPERATURE then always
      means that the energy limit was reached. */
  lemma OvertemperatureMeansEnergy(es: seq<Event>)
    requires Resets(es) < 999
    ensures Run(POWER_ON, es).fsm.faultCode == OVERTEMPERATURE ==> Run(POWER_ON, es).fsm.joule >= E_FAULT
  {
    WholeRunCeiling(es);
    OverheatedRun(POWER_ON, es);
  }

  // ----- Which runs stay fault-free -----

  function ChargeLeft(soc: real, amps: real): real { Clamp(soc - CHARGE_PER_AMP * amps) }

  /** A tick inside every limit, judged by load, accumulator and charge alone. */
  predicate TickAffordable(amps: real, joule: real, soc: real) {
    && Abs(amps) <= I_MAX
    && joule + TickHeat(amps) < E_FAULT
    && SOC_LOW <= ChargeLeft(soc, amps)
    && (amps < 0.0 ==> ChargeLeft(soc, amps) <= SOC_HIGH)
  }

  /** A run whose every tick is affordable. Only the commands are read: neither voltages nor temperature
      nor the vent enter. */
  predicate Affordable(amps: real, joule: real, soc: real, es: seq<Event>)
    decreases |es|
  {
    es == [] ||
    match es[0]
    case TickEvent =>
      TickAffordable(amps, joule, soc) && Affordable(amps, joule + TickHeat(amps), ChargeLeft(soc, amps), es[1..])
    case SetCurrent(v) => Affordable(v, joule, soc, es[1..])
    case BlockCooling => Affordable(amps, joule, soc, es[1..])
    case ResetEvent => Affordable(0.0, 0.0, soc, es[1..])
  }

  /** Below the 80 degree guard a tick faults exactly when it is not affordable. */
  lemma TickFaultsIff(d: Daemon)
    requires d.fsm.state != FAULT && Tick(d).bat.tCell <= T_FAULT
    ensures Tick(d).fsm.state != FAULT <==> TickAffordable(d.bat.iLoad, d.fsm.joule, d.bat.soc)
    ensures Tick(d).fsm.state != FAULT ==>
              && Tick(d).fsm.joule == d.fsm.joule + TickHeat(d.bat.iLoad)
              && Tick(d).bat.soc == ChargeLeft(d.bat.soc, d.bat.iLoad)
              && Tick(d).bat.iLoad == d.bat.iLoad
  {}

  lemma CoolerThan(d: Daemon, limit: real, degrees: real)
    requires Inv(d) && HeatWithin(d, limit) && limit + 1375.625 <= M_CP * degrees
    ensures d.bat.tCell < degrees
  {
    assert M_CP * d.bat.tCell < M_CP * degrees;
  }

  lemma {:induction false} FaultFreeIffAffordable(d: Daemon, es: seq<Event>, limit: real)
    requires Inv(d) && d.fsm.state != FAULT && HeatWithin(d, limit)
    requires limit + 1375.625 * (Resets(es) + 1) as real < M_CP * T_FAULT
    ensures FaultFree(d, es) <==> Affordable(d.bat.iLoad, d.fsm.joule, d.bat.soc, es)
    decreases |es|
  {
    if es != [] {
      var d1 := Apply(d, es[0]);
      HeatAcrossEvent(d, es[0], limit);
      if es[0] == TickEvent {
        CoolerThan(d1, limit, T_FAULT);
        TickFaultsIff(d);
      }
      if d1.fsm.state != FAULT {
        FaultFreeIffAffordable(d1, es[1..], if es[0] == ResetEvent then limit + 1375.625 else limit);
      }
    }
  }

  /** From power-on, over any commands with fewer than 999 resets, the daemon stays out of FAULT exactly
      when every tick is affordable. */
  lemma StaysFaultFreeIff(es: seq<Event>)
    requires Resets(es) < 999
    ensures FaultFree(POWER_ON, es) <==> Affordable(0.0, 0.0, 1.0, es)
  {
    FaultFreeIffAffordable(POWER_ON, es, M_CP * T_AMB);
  }

  // ----- The warning and the temperature -----

  lemma {:induction false} WarnedByEnergy(d: Daemon, es: seq<Event>, limit: real)
    requires Inv(d) && HeatWithin(d, limit) && (d.fsm.warned ==> d.fsm.joule >= E_WARN)
    requires limit + 1375.625 * (Resets(es) + 1) as real < M_CP * T_WARN
    ensures Run(d, es).fsm.warned ==> Run(d, es).fsm.joule >= E_WARN
    decreases |es|
  {
    if es != [] {
      var d1 := Apply(d, es[0]);
      HeatAcrossEvent(d, es[0], limit);
      CoolerThan(d1, if es[0] == ResetEvent then limit + 1375.625 else limit, T_WARN);
      WarnedByEnergy(d1, es[1..], if es[0] == ResetEvent then limit + 1375.625 else limit);
    }
  }

  /** Nor can the 60 degree warning in any run of fewer than 636 resets: the flag says exactly that the
      energy since the last reset has reached the warning level. */
  lemma WarnedMeansEnergy(es: seq<Event>)
    requires Resets(es) < 636
    ensures Run(POWER_ON, es).fsm.warned <==> Run(POWER_ON, es).fsm.joule >= E_WARN
  {
    InvRun(POWER_ON, es);
    WarnedByEnergy(POWER_ON, es, M_CP * T_AMB);
  }

  // ----- Warning before energy fault -----

  lemma {:induction false} EnergyGrowth(d: Daemon, es: seq<Event>)
    requires Inv(d)
    ensures Run(d, es).fsm.joule <= d.fsm.joule + 0.625 * Ticks(es) as real
    decreases |es|
  {
    if es != [] {
      var d1 := Apply(d, es[0]);
      if es[0] == TickEvent { InvTick(d); TickHeatRange(d.bat.iLoad); }
      EnergyGrowth(d1, es[1..]);
    }
  }

  /** Whatever currents are commanded, a run that ends with the energy limit reached was already
      warned 800 ticks before its end. */
  lemma WarnedEightHundredTicksBefore(es: seq<Event>, recent: seq<Event>)
    requires Ticks(recent) <= 800
    requires Run(POWER_ON, es + recent).fsm.joule >= E_FAULT
    ensures Run(POWER_ON, es).fsm.warned
  {
    InvRun(POWER_ON, es);
    RunConcat(POWER_ON, es, recent);
    EnergyGrowth(Run(POWER_ON, es), recent);
  }

  // ----- Sustained activity must fault -----

  /** Ticks of a run that find a load of at least 5 A in either direction. */
  function ActiveTicks(d: Daemon, es: seq<Event>): nat
    decreases |es|
  {
    if es == [] then 0
    else (if es[0] == TickEvent && Abs(d.bat.iLoad) >= IDLE_THRESHOLD then 1 else 0)
         + ActiveTicks(Apply(d, es[0]), es[1..])
  }

  lemma {:induction false} ActivityCostsEnergy(d: Daemon, es: seq<Event>)
    requires FaultFree(d, es)
    ensures 0.00025 * ActiveTicks(d, es) as real <= HeatReleased(d, es)
    decreases |es|
  {
    if es != [] {
      var d1 := Apply(d, es[0]);
      ActivityCostsEnergy(d1, es[1..]);
      TickHeatRange(d.bat.iLoad);
      assert es[0] == TickEvent ==> Integrates(d);
    }
  }

  /** The energy budget is a termination measure: between resets at most 5,499,999 ticks can carry a
      load of 5 A or more before the machine is in FAULT. */
  lemma SustainedActivityFaults(history: seq<Event>, es: seq<Event>)
    requires ResetFree(es)
    requires ActiveTicks(ResetAll(Run(POWER_ON, history)), es) >= 5_500_000
    ensures Run(ResetAll(Run(POWER_ON, history)), es).fsm.state == FAULT
  {
    var d := ResetAll(Run(POWER_ON, history));
    InvRun(POWER_ON, history);
    FaultFreeIffEndsOutsideFault(d, es);
    if Run(d, es).fsm.state != FAULT {
      ActivityCostsEnergy(d, es);
      JouleLedger(d, es);
      InvRun(d, es);
    }
  }

  // ----- Steady load -----

  /** n ticks under whatever load the daemon carries. */
  function TickRun(n: nat): seq<Event> { seq(n, _ => TickEvent) }

  lemma {:induction false} TickRunStep(d: Daemon, n: nat)
    requires n > 0
    ensures Run(d, TickRun(n)) == Tick(Run(d, TickRun(n - 1)))
  {
    assert TickRun(n) == TickRun(n - 1) + [TickEvent];
    RunConcat(d, TickRun(n - 1), [TickEvent]);
    assert [TickEvent][1..] == [];
  }

  /** Distance of the RC voltage from its equilibrium at the present current. */
  function RcDistance(b: Battery): real { b.vRc - R1 * b.iLoad }

  lemma TickShrinksDistance(d: Daemon)
    requires Tick(d).fsm.state != FAULT
    ensures Tick(d).bat.iLoad == d.bat.iLoad
    ensures Scaled(RcDistance(Tick(d).bat), RC_DAMPING, RcDistance(d.bat))
  {}

  lemma TickRunShrinksDistance(d: Daemon, n: nat)
    requires n > 0 && Run(d, TickRun(n)).fsm.state != FAULT
    ensures Run(d, TickRun(n - 1)).fsm.state != FAULT
    ensures Run(d, TickRun(n)).bat.iLoad == Run(d, TickRun(n - 1)).bat.iLoad
    ensures Scaled(RcDistance(Run(d, TickRun(n)).bat), RC_DAMPING, RcDistance(Run(d, TickRun(n - 1)).bat))
  {
    TickRunStep(d, n);
    TickShrinksDistance(Run(d, TickRun(n - 1)));
  }

  /** Under a constant current the RC voltage approaches i*R1 geometrically: n fault-free ticks
      multiply the distance by exactly RC_DAMPING^n. */
  lemma {:induction false} RcConvergesGeometrically(d: Daemon, n: nat)
    requires Run(d, TickRun(n)).fsm.state != FAULT
    ensures Run(d, TickRun(n)).bat.iLoad == d.bat.iLoad
    ensures Scaled(RcDistance(Run(d, TickRun(n)).bat), Pow(RC_DAMPING, n), RcDistance(d.bat))
  {
    if n > 0 {
      TickRunShrinksDistance(d, n);
      RcConvergesGeometrically(d, n - 1);
      ScaledAgain(RcDistance(Run(d, TickRun(n)).bat), RcDistance(Run(d, TickRun(n - 1)).bat),
                  RC_DAMPING, n, RcDistance(d.bat));
    }
  }

  /** a is p times b. */
  predicate Scaled(a: real, p: real, b: real) { a == p * b }

  lemma ScaledAgain(a: real, before: real, p: real, n: nat, b: real)
    requires n > 0 && Scaled(a, p, before) && Scaled(before, Pow(p, n - 1), b)
    ensures Scaled(a, Pow(p, n), b)
  {
    PowStep(p, n, b);
  }

  /** Terminal voltage at charge `soc` and current i, the RC branch away from its equilibrium by `transient`. */
  predicate Thevenin(b: Battery, i: real, transient: real) {
    b.vTerminal == 3.2 + 1.2 * b.soc - 0.015 * i - transient
  }

  lemma TickIsThevenin(d: Daemon)
    requires Tick(d).fsm.state != FAULT
    ensures Thevenin(Tick(d).bat, d.bat.iLoad, RcDistance(Tick(d).bat))
  {}

  /** After n >= 1 fault-free ticks at constant current i the terminal voltage is the open-circuit voltage
      less 15 milliohm times i, less the RC transient of the start decayed to exactly RC_DAMPING^n. */
  lemma TheveninSag(d: Daemon, n: nat)
    requires n > 0 && Run(d, TickRun(n)).fsm.state != FAULT
    ensures Thevenin(Run(d, TickRun(n)).bat, d.bat.iLoad, Pow(RC_DAMPING, n) * RcDistance(d.bat))
  {
    RcConvergesGeometrically(d, n);
    TickRunShrinksDistance(d, n);
    TickRunStep(d, n);
    TickIsThevenin(Run(d, TickRun(n - 1)));
  }

  /** Heat that keeps the cell below the temperature warning whatever the accumulator still admits. */
  const COOL_HEAT: real := 59.9 * M_CP

  /** A fault-free daemon under a constant discharge, its ledger reading `joule` and `soc`. */
  predicate Cruising(d: Daemon, amps: real, joule: real, soc: real) {
    && d.fsm.state != FAULT && d.fsm.faultCode == NONE && d.bat.iLoad == amps
    && d.fsm.joule == joule && d.bat.soc == soc
    && T_AMB <= d.bat.tCell && HeatWithin(d, COOL_HEAT)
    && (d.fsm.warned <==> joule >= E_WARN)
  }

  lemma CoolEnough(b: Battery, joule: real)
    requires Stored(b) - joule <= COOL_HEAT && joule < E_FAULT + 0.625
    ensures b.tCell < T_WARN
  {
    assert M_CP * b.tCell < M_CP * T_WARN;
  }

  lemma CruisingVerdict(d: Daemon, b: Battery, amps: real, joule: real, soc: real)
    requires d.fsm.state != FAULT && d.fsm.faultCode == NONE && (d.fsm.warned ==> joule >= E_WARN)
    requires b.iLoad == amps && 0.0 <= amps <= I_MAX && b.soc == soc >= SOC_LOW && T_AMB <= b.tCell < T_WARN
    requires d.fsm.joule + TickHeat(amps) == joule < E_FAULT
    requires Stored(b) - joule <= COOL_HEAT
    ensures Cruising(Conclude(b, d.fsm), amps, joule, soc)
  {
    assert Verdict(b) == NONE;
    SameStored(b.(fault := NONE), b);
  }

  /** One tick of a discharge inside both budgets. */
  lemma CruisingTick(d: Daemon, amps: real, joule: real, soc: real)
    requires Cruising(d, amps, joule, soc) && 0.0 <= amps <= I_MAX
    requires joule + TickHeat(amps) < E_FAULT
    requires SOC_LOW <= soc - CHARGE_PER_AMP * amps && soc <= 1.0
    ensures Cruising(Tick(d), amps, joule + TickHeat(amps), soc - CHARGE_PER_AMP * amps)
  {
    TickHeatRange(amps);
    HeatBalance(d.bat.tCell, amps, d.bat.blockCooling);
    StoredHeat(d.bat);
    assert CHARGE_PER_AMP * amps >= 0.0;
    var b := Integrated(d.bat);
    CoolEnough(b, joule + TickHeat(amps));
    CruisingVerdict(d, b, amps, joule + TickHeat(amps), soc - CHARGE_PER_AMP * amps);
  }

  lemma CruisingOneMore(start: Daemon, n: nat, amps: real, joule: real, soc: real)
    requires n > 0 && Cruising(Run(start, TickRun(n - 1)), amps, joule, soc) && 0.0 <= amps <= I_MAX
    requires joule + TickHeat(amps) < E_FAULT
    requires SOC_LOW <= soc - CHARGE_PER_AMP * amps && soc <= 1.0
    ensures Cruising(Run(start, TickRun(n)), amps, joule + TickHeat(amps), soc - CHARGE_PER_AMP * amps)
  {
    TickRunStep(start, n);
    CruisingTick(Run(start, TickRun(n - 1)), amps, joule, soc);
  }

  /** The ledger after n more ticks. */
  function JouleAfter(joule: real, amps: real, n: nat): real { joule + Times(n, TickHeat(amps)) }

  function SocAfter(soc: real, amps: real, n: nat): real { soc - Times(n, CHARGE_PER_AMP * amps) }

  lemma LedgerStep(joule: real, soc: real, amps: real, n: nat)
    requires 0.0 <= amps
    ensures JouleAfter(joule, amps, n) <= JouleAfter(joule, amps, n + 1) == JouleAfter(joule, amps, n) + TickHeat(amps)
    ensures SocAfter(soc, amps, n + 1) == SocAfter(soc, amps, n) - CHARGE_PER_AMP * amps
    ensures SocAfter(soc, amps, n + 1) <= SocAfter(soc, amps, n) <= soc
  {
    TickHeatRange(amps);
    assert CHARGE_PER_AMP * amps >= 0.0;
    TimesNonNegative(n, CHARGE_PER_AMP * amps);
  }

  /** A steady discharge that stays inside the energy and charge budgets never faults; n ticks on, the
      accumulator and the state of charge are known exactly. */
  lemma {:induction false} SteadyDischarge(start: Daemon, amps: real, joule: real, soc: real, n: nat)
    requires Cruising(start, amps, joule, soc) && 0.0 <= amps <= I_MAX && soc <= 1.0
    requires JouleAfter(joule, amps, n) < E_FAULT && SOC_LOW <= SocAfter(soc, amps, n)
    ensures Cruising(Run(start, TickRun(n)), amps, JouleAfter(joule, amps, n), SocAfter(soc, amps, n))
  {
    if n > 0 {
      LedgerStep(joule, soc, amps, n - 1);
      SteadyDischarge(start, amps, joule, soc, n - 1);
      CruisingOneMore(start, n, amps, JouleAfter(joule, amps, n - 1), SocAfter(soc, amps, n - 1));
    }
  }

  /** A powered-on daemon told to discharge, its cooling vent blocked or not. */
  function Loaded(amps: real, blocked: bool): Daemon {
    var d := Apply(POWER_ON, SetCurrent(amps));
    if blocked then Apply(d, BlockCooling) else d
  }

  lemma LoadedCruises(amps: real, blocked: bool)
    ensures Cruising(Loaded(amps, blocked), amps, 0.0, 1.0)
  {}

  /** In FAULT with the given ledger, by the budget that ran out. */
  predicate FaultedAt(d: Daemon, joule: real, soc: real) {
    && d.fsm.state == FAULT && d.fsm.joule == joule && d.bat.soc == soc
    && d.fsm.faultCode == (if soc < SOC_LOW then UNDERVOLTAGE else OVERTEMPERATURE)
  }

  lemma FaultingTick(d: Daemon, amps: real, joule: real, soc: real)
    requires Cruising(d, amps, joule, soc) && 0.0 <= amps <= I_MAX
    requires joule < E_FAULT && SOC_LOW <= soc <= 1.0
    requires joule + TickHeat(amps) >= E_FAULT || soc - CHARGE_PER_AMP * amps < SOC_LOW
    ensures FaultedAt(Tick(d), joule + TickHeat(amps), soc - CHARGE_PER_AMP * amps)
  {
    TickHeatRange(amps);
    StoredHeat(d.bat);
    var b := Integrated(d.bat);
    assert 0.0 <= CHARGE_PER_AMP * amps <= 0.05;
    CoolEnough(b, joule + TickHeat(amps));
  }

  lemma LastTickFaults(start: Daemon, n: nat, amps: real, joule: real, soc: real)
    requires n > 0 && Cruising(Run(start, TickRun(n - 1)), amps, joule, soc) && 0.0 <= amps <= I_MAX
    requires joule < E_FAULT && SOC_LOW <= soc <= 1.0
    requires joule + TickHeat(amps) >= E_FAULT || soc - CHARGE_PER_AMP * amps < SOC_LOW
    ensures FaultedAt(Run(start, TickRun(n)), joule + TickHeat(amps), soc - CHARGE_PER_AMP * amps)
  {
    TickRunStep(start, n);
    FaultingTick(Run(start, TickRun(n - 1)), amps, joule, soc);
  }

  /** The tick of a steady discharge that oversteps a budget faults, and the budget decides the code:
      undervoltage if the charge ran out, over-temperature if only the energy did. */
  lemma SteadyDischargeEnds(start: Daemon, amps: real, joule: real, soc: real, n: nat)
    requires n > 0 && Cruising(start, amps, joule, soc) && 0.0 <= amps <= I_MAX && soc <= 1.0
    requires JouleAfter(joule, amps, n - 1) < E_FAULT && SOC_LOW <= SocAfter(soc, amps, n - 1)
    requires JouleAfter(joule, amps, n) >= E_FAULT || SocAfter(soc, amps, n) < SOC_LOW
    ensures FaultedAt(Run(start, TickRun(n)), JouleAfter(joule, amps, n), SocAfter(soc, amps, n))
  {
    LedgerStep(joule, soc, amps, n - 1);
    SteadyDischarge(start, amps, joule, soc, n - 1);
    LastTickFaults(start, n, amps, JouleAfter(joule, amps, n - 1), SocAfter(soc, amps, n - 1));
  }

  // ----- Which current can empty the battery -----

  /** Ticks a discharge can take before its charge budget is overstepped. */
  function ChargeTicks(amps: real, soc: real): nat
    requires 0.0 < amps && SOC_LOW <= soc
  {
    assert CHARGE_PER_AMP * amps > 0.0;
    ((soc - SOC_LOW) / (CHARGE_PER_AMP * amps)).Floor
  }

  lemma QuotientTimes(x: real, y: real, z: real)
    requires y > 0.0 && z == x / y
    ensures z * y == x
  {}

  lemma ScaledBelow(z: real, high: real, y: real)
    requires z < high && y > 0.0
    ensures z * y < high * y
  {
    MulPositive(high - z, y);
    assert (high - z) * y == high * y - z * y;
  }

  lemma ScaledBetween(x: real, y: real, z: real, low: real, high: real)
    requires z * y == x && y > 0.0 && low <= z < high
    ensures low * y <= x < high * y
  {
    MulMono(low, z, y);
    ScaledBelow(z, high, y);
  }

  lemma QuotientSign(x: real, y: real, z: real)
    requires y > 0.0 && x >= 0.0 && z * y == x
    ensures z >= 0.0
  {
    if z < 0.0 { MulPositive(-z, y); }
  }

  lemma FloorBounds(x: real, y: real, q: int)
    requires y > 0.0 && x >= 0.0 && q == (x / y).Floor
    ensures q >= 0 && q as real * y <= x < (q + 1) as real * y
  {
    var z := x / y;
    QuotientTimes(x, y, z);
    QuotientSign(x, y, z);
    ScaledBetween(x, y, z, q as real, (q + 1) as real);
  }

  lemma ChargeTicksFit(amps: real, soc: real)
    requires 0.0 < amps && SOC_LOW <= soc
    ensures SocAfter(soc, amps, ChargeTicks(amps, soc) + 1) < SOC_LOW <= SocAfter(soc, amps, ChargeTicks(amps, soc))
  {
    var c, q := CHARGE_PER_AMP * amps, ChargeTicks(amps, soc);
    FloorBounds(soc - SOC_LOW, c, q);
    TimesIsProduct(q, c);
    TimesIsProduct(q + 1, c);
  }

  /** The first tick that reaches the energy limit. */
  lemma {:induction false} FirstSpent(joule: real, amps: real, q: nat) returns (m: nat)
    requires joule < E_FAULT <= JouleAfter(joule, amps, q)
    ensures 0 < m <= q && JouleAfter(joule, amps, m - 1) < E_FAULT <= JouleAfter(joule, amps, m)
  {
    if JouleAfter(joule, amps, q - 1) < E_FAULT { m := q; } else { m := FirstSpent(joule, amps, q - 1); }
  }

  lemma LedgerMono(joule: real, soc: real, amps: real, a: nat, b: nat)
    requires a <= b && 0.0 <= amps
    ensures JouleAfter(joule, amps, a) <= JouleAfter(joule, amps, b) && SocAfter(soc, amps, b) <= SocAfter(soc, amps, a)
  {
    TickHeatRange(amps);
    assert CHARGE_PER_AMP * amps >= 0.0;
    TimesMonoCount(a, b, TickHeat(amps));
    TimesMonoCount(a, b, CHARGE_PER_AMP * amps);
  }

  /** Whether the energy budget outlasts the charge. */
  predicate CanEmpty(amps: real, joule: real, soc: real)
    requires 0.0 < amps && SOC_LOW <= soc
  {
    JouleAfter(joule, amps, ChargeTicks(amps, soc)) < E_FAULT
  }

  /** Every steady discharge ends in a fault, and the current alone decides which. */
  lemma DischargeEnd(start: Daemon, amps: real, joule: real, soc: real) returns (n: nat)
    requires Cruising(start, amps, joule, soc) && 0.0 < amps <= I_MAX && SOC_LOW <= soc <= 1.0 && joule < E_FAULT
    ensures n > 0 && JouleAfter(joule, amps, n - 1) < E_FAULT && SOC_LOW <= SocAfter(soc, amps, n - 1)
    ensures Run(start, TickRun(n)).fsm.state == FAULT
    ensures Run(start, TickRun(n)).fsm.faultCode == if CanEmpty(amps, joule, soc) then UNDERVOLTAGE else OVERTEMPERATURE
  {
    var q := ChargeTicks(amps, soc);
    ChargeTicksFit(amps, soc);
    if CanEmpty(amps, joule, soc) {
      n := q + 1;
    } else {
      n := FirstSpent(joule, amps, q);
      LedgerMono(joule, soc, amps, n, q);
      LedgerMono(joule, soc, amps, n - 1, q);
    }
    SteadyDischargeEnds(start, amps, joule, soc, n);
  }

  lemma TickRunLatched(start: Daemon, m: nat, n: nat)
    requires m <= n && Run(start, TickRun(m)).fsm.state == FAULT
    ensures Run(start, TickRun(n)).fsm == Run(start, TickRun(m)).fsm
  {
    assert TickRun(n) == TickRun(m) + TickRun(n - m);
    RunConcat(start, TickRun(m), TickRun(n - m));
    OnlyResetLeavesFault(Run(start, TickRun(m)), TickRun(n - m));
  }

  /** A steady discharge ever empties the battery exactly when the heat of the ticks its charge lasts
      stays below the energy limit. */
  lemma EmptiesIff(start: Daemon, amps: real, joule: real, soc: real)
    requires Cruising(start, amps, joule, soc) && 0.0 < amps <= I_MAX && SOC_LOW <= soc <= 1.0 && joule < E_FAULT
    ensures (exists n: nat :: Run(start, TickRun(n)).fsm.faultCode == UNDERVOLTAGE) <==> CanEmpty(amps, joule, soc)
  {
    var end := DischargeEnd(start, amps, joule, soc);
    if !CanEmpty(amps, joule, soc) {
      forall n: nat ensures Run(start, TickRun(n)).fsm.faultCode != UNDERVOLTAGE {
        if n >= end {
          TickRunLatched(start, end, n);
        } else {
          LedgerMono(joule, soc, amps, n, end - 1);
          SteadyDischarge(start, amps, joule, soc, n);
        }
      }
    }
  }

  lemma CanEmptyThreshold(amps: real)
    requires 0.0 < amps <= I_MAX
    ensures amps <= 0.39 ==> CanEmpty(amps, 0.0, 1.0)
    ensures amps >= 0.4 ==> !CanEmpty(amps, 0.0, 1.0)
  {
    var c, q := CHARGE_PER_AMP * amps, ChargeTicks(amps, 1.0);
    FloorBounds(0.95, c, q);
    TimesIsProduct(q, TickHeat(amps));
    ThresholdArithmetic(amps, q as real);
  }

  lemma ThresholdArithmetic(amps: real, q: real)
    requires 0.0 < amps <= I_MAX && q * (CHARGE_PER_AMP * amps) <= 0.95 < (q + 1.0) * (CHARGE_PER_AMP * amps)
    ensures amps <= 0.39 ==> q * TickHeat(amps) < E_FAULT
    ensures amps >= 0.4 ==> q * TickHeat(amps) >= E_FAULT
  {
    var x := q * amps;
    assert q * TickHeat(amps) == x * amps * 0.00001;
    assert CHARGE_PER_AMP * x <= 0.95 < CHARGE_PER_AMP * (x + amps);
    if amps <= 0.39 { MulMono(x * amps, x * 0.39, 1.0); }
    if amps >= 0.4 { MulMono(0.4, amps, x); }
  }

  /** From power-on a steady current of up to 0.39 A empties the battery and one of 0.4 A or more never
      does; the capacity test draws 20 A. */
  lemma FullDischargeThreshold(amps: real, blocked: bool)
    requires 0.0 < amps <= I_MAX
    ensures amps <= 0.39 ==> exists n: nat :: Run(Loaded(amps, blocked), TickRun(n)).fsm.faultCode == UNDERVOLTAGE
    ensures amps >= 0.4 ==> forall n: nat :: Run(Loaded(amps, blocked), TickRun(n)).fsm.faultCode != UNDERVOLTAGE
  {
    LoadedCruises(amps, blocked);
    CanEmptyThreshold(amps);
    EmptiesIff(Loaded(amps, blocked), amps, 0.0, 1.0);
  }

  /** Energy and charge of n ticks at a concrete current. */
  lemma Budget(n: nat, amps: real, energy: real, drawn: real)
    requires energy == n as real * TickHeat(amps) && drawn == n as real * (CHARGE_PER_AMP * amps)
    ensures Times(n, TickHeat(amps)) == energy && Times(n, CHARGE_PER_AMP * amps) == drawn
  {
    TimesIsProduct(n, TickHeat(amps));
    TimesIsProduct(n, CHARGE_PER_AMP * amps);
  }

  /** The 800-tick margin cannot be improved: at 250 A the machine is not yet warned after 1399 ticks
      and in FAULT after 2200. */
  lemma EightHundredTicksIsTight(blocked: bool)
    ensures var start := Loaded(250.0, blocked);
            && !Run(start, TickRun(1399)).fsm.warned
            && Run(start, TickRun(2200)).fsm.state == FAULT
            && Run(start, TickRun(2200)).fsm.joule >= E_FAULT
  {
    var start, c := Loaded(250.0, blocked), CHARGE_PER_AMP * 250.0;
    LoadedCruises(250.0, blocked);
    Budget(1399, 250.0, 874.375, 1399.0 * c);
    Budget(2199, 250.0, 1374.375, 2199.0 * c);
    Budget(2200, 250.0, 1375.0, 2200.0 * c);
    SteadyDischarge(start, 250.0, 0.0, 1.0, 1399);
    SteadyDischargeEnds(start, 250.0, 0.0, 1.0, 2200);
  }

  /** The documented thermal-runaway timeline at 50 A: the warning comes with tick 35,000 and the fault
      with tick 55,000, whether or not the vent is blocked. */
  lemma ThermalRunawayTimeline(blocked: bool)
    ensures var start := Loaded(50.0, blocked);
            && !Run(start, TickRun(34_999)).fsm.warned && Run(start, TickRun(35_000)).fsm.warned
            && Run(start, TickRun(54_999)).fsm.state != FAULT && Run(start, TickRun(55_000)).fsm.state == FAULT
  {
    var start, c := Loaded(50.0, blocked), CHARGE_PER_AMP * 50.0;
    LoadedCruises(50.0, blocked);
    Budget(34_999, 50.0, 874.975, 34_999.0 * c);
    Budget(35_000, 50.0, 875.0, 35_000.0 * c);
    Budget(54_999, 50.0, 1374.975, 54_999.0 * c);
    Budget(55_000, 50.0, 1375.0, 55_000.0 * c);
    SteadyDischarge(start, 50.0, 0.0, 1.0, 34_999);
    SteadyDischarge(start, 50.0, 0.0, 1.0, 35_000);
    SteadyDischarge(start, 50.0, 0.0, 1.0, 54_999);
    SteadyDischargeEnds(start, 50.0, 0.0, 1.0, 55_000);
  }

  /** The documented capacity test cannot work: at 20 A the energy limit faults the machine with tick
      343,750, with more than 98 % of the charge still there. */
  lemma CapacityTestStopsAlmostFull()
    ensures var d := Run(Loaded(20.0, false), TickRun(343_750));
            d.fsm.state == FAULT && d.fsm.faultCode == OVERTEMPERATURE && d.bat.soc > 0.98
  {
    var c := CHARGE_PER_AMP * 20.0;
    LoadedCruises(20.0, false);
    Budget(343_749, 20.0, 1374.996, 343_749.0 * c);
    Budget(343_750, 20.0, 1375.0, 343_750.0 * c);
    SteadyDischargeEnds(Loaded(20.0, false), 20.0, 0.0, 1.0, 343_750);
  }

  /** A discharge from power-on whose n-th tick reaches the energy limit well before the charge runs out. */
  lemma SpentAt(amps: real, n: nat, before: real, after: real, later: nat)
    requires 0.0 < amps <= I_MAX && 0 < n <= later
    requires before == (n - 1) as real * TickHeat(amps) && after == n as real * TickHeat(amps)
    requires before < E_FAULT <= after && n as real * (CHARGE_PER_AMP * amps) <= 0.95
    ensures Run(Loaded(amps, false), TickRun(later)).fsm.faultCode == OVERTEMPERATURE
  {
    var c := CHARGE_PER_AMP * amps;
    LoadedCruises(amps, false);
    Budget(n - 1, amps, before, (n - 1) as real * c);
    Budget(n, amps, after, n as real * c);
    LedgerMono(0.0, 1.0, amps, n - 1, n);
    SteadyDischargeEnds(Loaded(amps, false), amps, 0.0, 1.0, n);
    TickRunLatched(Loaded(amps, false), n, later);
  }

  lemma RegenFaults(later: nat)
    requires later > 0
    ensures Run(Loaded(-50.0, false), TickRun(later)).fsm.faultCode == OVERVOLTAGE
  {
    var d := Loaded(-50.0, false);
    TickRunStep(d, 1);
    assert Run(d, TickRun(0)) == d;
    assert Integrated(d.bat).soc == 1.0 && Integrated(d.bat).tCell < 26.0;
    TickRunLatched(d, 1, later);
  }

  lemma ConstantDischargeFaults()
    ensures Run(Loaded(50.0, false), TickRun(1_800_000)).fsm.faultCode == OVERTEMPERATURE
  {
    SpentAt(50.0, 55_000, 1374.975, 1375.0, 1_800_000);
  }

  lemma AccelerationPulseFaults()
    ensures Run(Loaded(200.0, false), TickRun(5_000)).fsm.faultCode == OVERTEMPERATURE
  {
    SpentAt(200.0, 3_438, 1374.8, 1375.2, 5_000);
  }

  lemma CapacityTestFaults()
    ensures Run(Loaded(20.0, false), TickRun(18_000_000)).fsm.faultCode == OVERTEMPERATURE
  {
    SpentAt(20.0, 343_750, 1374.996, 1375.0, 18_000_000);
  }

  /** Started on a freshly powered daemon, the first step of every shipped sequence ends in FAULT, at 1000
      ticks a second: 50 A for 1800 s, 200 A for 5 s, 20 A for 18,000 s and -50 A for 2 s. */
  lemma ShippedSequencesFault()
    ensures Run(Loaded(50.0, false), TickRun(1_800_000)).fsm.faultCode == OVERTEMPERATURE
    ensures Run(Loaded(200.0, false), TickRun(5_000)).fsm.faultCode == OVERTEMPERATURE
    ensures Run(Loaded(20.0, false), TickRun(18_000_000)).fsm.faultCode == OVERTEMPERATURE
    ensures Run(Loaded(-50.0, false), TickRun(2_000)).fsm.faultCode == OVERVOLTAGE
  {
    ConstantDischargeFaults();
    AccelerationPulseFaults();
    CapacityTestFaults();
    RegenFaults(2_000);
  }

  /** Nor can the activity budget be lowered: 5,499,999 ticks at 5 A leave the machine out of FAULT. */
  lemma ActivityBudgetIsTight(blocked: bool)
    ensures Run(Loaded(5.0, blocked), TickRun(5_499_999)).fsm.state != FAULT
  {
    LoadedCruises(5.0, blocked);
    Budget(5_499_999, 5.0, 1374.99975, 5_499_999.0 * (CHARGE_PER_AMP * 5.0));
    SteadyDischarge(Loaded(5.0, blocked), 5.0, 0.0, 1.0, 5_499_999);
  }
}
