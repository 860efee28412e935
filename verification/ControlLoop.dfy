/** The dosing daemon's main loop (controller/src/main.cpp) with its flow sensor (FlowSensor.cpp), the
    coil exchange of the Modbus thread (ModbusServer.cpp, serve_loop) and the PLC that drives it
    (plc_simulator/simulator.py). */
module ControlLoop {
  import opened Wrappers
  import opened Reals
  import opened DosingFsm
  import opened ModbusServer

  const K_FACTOR: real := 5.0
  const NOMINAL_FLOW: real := 200.0
  const TARGET_VOLUME: real := 1000.0
  const FLOW_THRESHOLD_X10: Word16 := 50

  /** A sensor reading for a target flow under relative noise; a negative frequency reads as zero. */
  function ReadFlow(target: real, noise: real): (flow: real)
    ensures flow == Max(0.0, target * (1.0 + noise))
  {
    K_FACTOR * Max(0.0, target / K_FACTOR * (1.0 + noise))
  }

  function TargetFlow(s: DosingState): real { if s == DOSING then NOMINAL_FLOW else 0.0 }

  /** `decide_valve` on the registers the PLC has read. */
  predicate DecideValve(r: Registers) { r[0] >= FLOW_THRESHOLD_X10 && r[12] != 3 }

  // ----- One iteration of the main loop -----

  /** A volume that converts to uint32_t. */
  predicate Countable(ml: real) { 0.0 <= ml < 4294967296.0 }

  function Millilitres(ml: real): Word32
    requires Countable(ml)
  {
    ml.Floor
  }

  function Published(r: Registers, flow: real, valve: bool, rfid: Option<Epc>, d: Dosing): Registers
    requires Representable(flow) && Countable(d.accumulated)
  {
    var r1 := Store(Store(r, SetFlowRate(flow)), SetValveState(valve));
    var r2 := Store(r1, SetTotalVolume(Millilitres(d.accumulated)));
    Store(Store(r2, SetRfidTag(if rfid.Some? then rfid.value else [])), SetDosingState(d.state))
  }

  /** Reads the sensors, drives the machine and publishes its state. The caller's readings must keep the
      two numeric conversions defined. */
  method Iterate(fsm: Controller, modbus: Server, rfid: Option<Epc>, noise: real, dt: real)
    requires modbus.Valid() && Representable(ReadFlow(TargetFlow(fsm.state), noise))
    requires var flow := ReadFlow(TargetFlow(fsm.state), noise);
             Countable(Next(fsm.Value(), Cycle(modbus.valveCmd, modbus.resetCmd, flow, rfid, dt)).accumulated)
    modifies fsm, modbus.regs
    ensures var flow := old(ReadFlow(TargetFlow(fsm.state), noise));
            && fsm.Value() == Next(old(fsm.Value()), Cycle(modbus.valveCmd, modbus.resetCmd, flow, rfid, dt))
            && Representable(flow) && Countable(fsm.accumulated)
            && modbus.regs[..] == Published(old(modbus.regs[..]), flow, modbus.valveCmd, rfid, fsm.Value())
  {
    var flow := ReadFlow(if fsm.state == DOSING then 200.0 else 0.0, noise);
    var valve, reset := modbus.valveCmd, modbus.resetCmd;
    fsm.Update(valve, reset, flow, rfid, dt);
    modbus.SetFlow(flow);
    modbus.SetValve(valve);
    modbus.SetVolume(Millilitres(fsm.accumulated));
    modbus.SetTag(if rfid.Some? then rfid.value else []);
    modbus.SetState(fsm.state);
  }

  /** The registers' view of an iteration's outcome. */
  function Outcome(flow: real, valve: bool, rfid: Option<Epc>, d: Dosing): Shadow
    requires Countable(d.accumulated)
  {
    Shadow(flow, valve, Millilitres(d.accumulated), if rfid.Some? then rfid.value else [], d.state)
  }

  /** After every iteration the collector's decoder sees the machine: its state by name, its volume in
      whole millilitres, the valve command and the scanned tag. */
  lemma IterationIsVisible(r: Registers, flow: real, valve: bool, rfid: Option<Epc>, d: Dosing)
    requires Representable(flow) && Countable(d.accumulated)
    ensures Shows(Decode(Published(r, flow, valve, rfid, d)), Outcome(flow, valve, rfid, d))
  {
    PublishedHolds(r, flow, valve, rfid, d);
    HeldIsDecoded(Published(r, flow, valve, rfid, d), Outcome(flow, valve, rfid, d));
  }

  lemma PublishedHolds(r: Registers, flow: real, valve: bool, rfid: Option<Epc>, d: Dosing)
    requires Representable(flow) && Countable(d.accumulated)
    ensures Holds(Published(r, flow, valve, rfid, d), Outcome(flow, valve, rfid, d))
  {
    var p, tag := Published(r, flow, valve, rfid, d), Outcome(flow, valve, rfid, d).tag;
    assert forall j :: 4 <= j < 12 ==> p[j] == TagRegister(tag, j - 4);
  }

  // ----- The closed loop -----

  /** The machine, the shared registers and coils, the coil bits the PLC last wrote, and the registers
      it last read. */
  datatype Plant = Plant(dosing: Dosing, regs: Registers, valveCmd: bool, resetCmd: bool,
                         valveBit: bool, resetBit: bool, view: Registers)

  /** What can happen: an iteration of the main loop, a register read or a coil write by the PLC. Each
      PLC query first copies the coil bits written before it. */
  datatype PlantEvent = Iteration(rfid: Option<Epc>, noise: real, dt: real) | PlcRead | PlcWrite

  ghost predicate PlantStep(p: Plant, e: PlantEvent, q: Plant) {
    match e
    case Iteration(rfid, noise, dt) =>
      var flow := ReadFlow(TargetFlow(p.dosing.state), noise);
      var d := Next(p.dosing, Cycle(p.valveCmd, p.resetCmd, flow, rfid, dt));
      && Representable(flow) && Countable(d.accumulated)
      && q == p.(dosing := d, regs := Published(p.regs, flow, p.valveCmd, rfid, d))
    case PlcRead => q == p.(valveCmd := p.valveBit, resetCmd := p.resetBit, view := p.regs)
    case PlcWrite => q == p.(valveCmd := p.valveBit, resetCmd := p.resetBit, valveBit := DecideValve(p.view))
  }

  lemma FlowReaches(x: real)
    requires Representable(x) && x >= 0.0
    ensures FlowRegister(x) >= FLOW_THRESHOLD_X10 <==> x >= 5.0
  {}

  /** What the PLC decides after an iteration: the valve is to be open exactly if the machine was dosing,
      the noise left at least 5 of the 200 ml/min, and the dose is not complete. */
  lemma PlcOpensIff(p: Plant, e: PlantEvent, q: Plant)
    requires e.Iteration? && PlantStep(p, e, q)
    ensures DecideValve(q.regs) <==>
            p.dosing.state == DOSING && 200.0 * (1.0 + e.noise) >= 5.0 && q.dosing.state != COMPLETE
  {
    var flow := ReadFlow(TargetFlow(p.dosing.state), e.noise);
    PublishedHolds(p.regs, flow, p.valveCmd, e.rfid, q.dosing);
    FlowReaches(flow);
    assert q.regs[12] == 3 <==> q.dosing.state == COMPLETE;
  }

  const NO_REGISTERS: Registers := [0, 0, 0, 0, 0, 0, 0, 0, 0, 0, 0, 0, 0]

  const POWERED_UP: Plant := Plant(Start(TARGET_VOLUME), NO_REGISTERS, false, false, false, false, NO_REGISTERS)

  ghost predicate Moves(p: Plant, q: Plant) { exists e :: PlantStep(p, e, q) }

  ghost predicate Behaviour(ps: seq<Plant>) {
    && ps != [] && ps[0] == POWERED_UP
    && (forall i :: 0 <= i < |ps| - 1 ==> Moves(ps[i], ps[i + 1]))
  }

  /** No flow is on display anywhere and no valve command is under way. */
  predicate Dry(p: Plant) {
    && p.dosing.state == IDLE && p.dosing.accumulated == 0.0
    && !p.valveCmd && !p.valveBit
    && p.regs[0] == 0 && p.view[0] == 0
  }

  lemma DryStep(p: Plant, e: PlantEvent, q: Plant)
    requires Dry(p) && PlantStep(p, e, q)
    ensures Dry(q)
  {
    if e.Iteration? {
      assert ReadFlow(TargetFlow(p.dosing.state), e.noise) == 0.0;
      assert FlowRegister(0.0) == 0;
    }
  }

  /** The loop starves itself: the daemon shows flow only while DOSING, the PLC opens the valve only on
      flow, and the machine leaves IDLE only on an open valve. With the PLC as the only writer of coils,
      no behaviour, whatever tags are scanned, ever dispenses anything. */
  lemma {:induction false} ClosedLoopNeverDoses(ps: seq<Plant>, n: nat)
    requires Behaviour(ps) && n < |ps|
    ensures Dry(ps[n])
  {
    if n > 0 {
      ClosedLoopNeverDoses(ps, n - 1);
      var i := n - 1;
      assert Moves(ps[i], ps[i + 1]);
      var e :| PlantStep(ps[i], e, ps[i + 1]);
      DryStep(ps[i], e, ps[i + 1]);
    }
  }
}
