/** The four-state battery management machine with its latching fault, Joule-energy
    accumulator and warning flag (BmsStateMachine.h, BmsStateMachine.cpp). */
module BmsStateMachine {
  import opened BatteryModel
  import opened Doubles
  import opened Reals

  datatype BmsState = IDLE | DISCHARGING | CHARGING | FAULT

  const IDLE_THRESHOLD: real := 5.0

  /** What `fault_detail` reports about the moment a fault was entered. */
  datatype Detail = NoDetail | Detail(code: FaultCode, soc: real, tCell: real, vTerminal: real, iLoad: real)

  datatype Fsm = Fsm(state: BmsState, faultCode: FaultCode, detail: Detail, warned: bool, joule: real)

  /** The whole daemon at one instant: the shared battery and the machine. */
  datatype Daemon = Daemon(bat: Battery, fsm: Fsm)

  const FRESH: Fsm := Fsm(IDLE, NONE, NoDetail, false, 0.0)
  const POWER_ON: Daemon := Daemon(INITIAL, FRESH)

  /** The operating state a current asks for. */
  function ClassOf(i: real): BmsState {
    if i > IDLE_THRESHOLD then DISCHARGING else if i < -IDLE_THRESHOLD then CHARGING else IDLE
  }

  function EnterFault(f: Fsm, fc: FaultCode, b: Battery): Fsm {
    f.(state := FAULT, faultCode := fc, detail := Detail(fc, b.soc, b.tCell, b.vTerminal, b.iLoad))
  }

  /** A tick in which the battery model is integrated. */
  predicate Integrates(d: Daemon) {
    d.fsm.state != FAULT && Abs(d.bat.iLoad) <= I_MAX
  }

  /** The verdict of an integrating tick: the model's own fault first, then the energy limit. */
  function TickFault(b: Battery, joule: real): FaultCode {
    if Verdict(b) != NONE then Verdict(b)
    else if joule >= E_FAULT then OVERTEMPERATURE
    else NONE
  }

  /** What an update cycle makes of a freshly integrated battery. */
  function Conclude(b: Battery, before: Fsm): Daemon {
    var e := before.joule + TickHeat(b.iLoad);
    var f := before.(joule := e, warned := before.warned || b.tCell >= T_WARN || e >= E_WARN);
    if TickFault(b, e) != NONE then Daemon(b, EnterFault(f, TickFault(b, e), b))
    else Daemon(b.(fault := NONE), f.(state := Settle(f.state, b.iLoad)))
  }

  /** One update cycle on values. */
  function Tick(d: Daemon): Daemon {
    if d.fsm.state == FAULT then d
    else if Abs(d.bat.iLoad) > I_MAX then d.(fsm := EnterFault(d.fsm, OVERCURRENT, d.bat))
    else Conclude(Integrated(d.bat), d.fsm)
  }

  /** Where a fault-free tick leaves the machine: an active state is entered only from IDLE and
      left only to IDLE. */
  function Settle(s: BmsState, i: real): BmsState {
    if s == IDLE || s == ClassOf(i) then ClassOf(i) else IDLE
  }

  function ResetAll(d: Daemon): Daemon {
    Daemon(d.bat.(fault := NONE, blockCooling := false, iLoad := 0.0), FRESH)
  }

  // ----- The same machine on doubles -----

  datatype Report = NoReport | Report(code: FaultCode, soc: Num, tCell: Num, vTerminal: Num, iLoad: Num)

  datatype Machine = Machine(state: BmsState, faultCode: FaultCode, detail: Report, warned: bool, joule: Num)

  /** The daemon whatever its quantities have become. */
  datatype Bms = Bms(cell: Cell, fsm: Machine)

  const CLEARED: Machine := Machine(IDLE, NONE, NoReport, false, Fin(0.0))

  function ReportOf(d: Detail): Report {
    match d
    case NoDetail => NoReport
    case Detail(code, soc, tCell, vTerminal, iLoad) => Report(code, Fin(soc), Fin(tCell), Fin(vTerminal), Fin(iLoad))
  }

  /** A daemon all of whose quantities are numbers. */
  function BmsOf(d: Daemon): Bms {
    Bms(CellOf(d.bat), Machine(d.fsm.state, d.fsm.faultCode, ReportOf(d.fsm.detail), d.fsm.warned, Fin(d.fsm.joule)))
  }

  function Fail(f: Machine, fc: FaultCode, c: Cell): Machine {
    f.(state := FAULT, faultCode := fc, detail := Report(fc, c.soc, c.tCell, c.vTerminal, c.iLoad))
  }

  /** Joule heat of a tick; NaN if the load is. */
  function CellHeat(i: Num): Num { if i.Fin? then Fin(TickHeat(i.x)) else NaN }

  function CycleFault(c: Cell, joule: Num): FaultCode {
    if CellVerdict(c) != NONE then CellVerdict(c)
    else if AtLeast(joule, E_FAULT) then OVERTEMPERATURE
    else NONE
  }

  /** Where a fault-free cycle leaves the machine: for NaN, where it was. */
  function SettleOn(s: BmsState, i: Num): BmsState { if i.Fin? then Settle(s, i.x) else s }

  function Finish(c: Cell, before: Machine): Bms {
    var e := Plus(before.joule, CellHeat(c.iLoad));
    var f := before.(joule := e, warned := before.warned || AtLeast(c.tCell, T_WARN) || AtLeast(e, E_WARN));
    if CycleFault(c, e) != NONE then Bms(c, Fail(f, CycleFault(c, e), c))
    else Bms(c.(fault := NONE), f.(state := SettleOn(f.state, c.iLoad)))
  }

  /** One update cycle on values. */
  function Cycle(m: Bms): Bms {
    if m.fsm.state == FAULT then m
    else if Exceeds(m.cell.iLoad, I_MAX) then m.(fsm := Fail(m.fsm, OVERCURRENT, m.cell))
    else Finish(Stepped(m.cell), m.fsm)
  }

  function Cleared(m: Bms): Bms {
    Bms(m.cell.(fault := NONE, blockCooling := false, iLoad := Fin(0.0)), CLEARED)
  }

  /** While every quantity is a number the two machines agree. */
  lemma CycleOnNumbers(d: Daemon)
    ensures Cycle(BmsOf(d)) == BmsOf(Tick(d)) && Cleared(BmsOf(d)) == BmsOf(ResetAll(d))
  {
    SteppedNumbers(d.bat);
    SteppedNumbers(Integrated(d.bat));
  }

  class StateMachine {
    var state: BmsState
    var faultCode: FaultCode
    var detail: Report
    var warned: bool
    var joule: Num

    constructor ()
      ensures Value() == CLEARED
    {
      state, faultCode, detail, warned, joule := IDLE, NONE, NoReport, false, Fin(0.0);
    }

    function Value(): Machine
      reads this
    {
      Machine(state, faultCode, detail, warned, joule)
    }

    method EnterFaultState(fc: FaultCode, s: BatteryState)
      modifies this
      ensures Value() == Fail(old(Value()), fc, s.Value())
    {
      state := FAULT;
      faultCode := fc;
      detail := Report(fc, s.soc, s.tCell, s.vTerminal, s.iLoad);
    }

    /** The part of an update cycle after integration. */
    method ConcludeCycle(s: BatteryState, fc: FaultCode)
      requires state != FAULT && fc == CellVerdict(s.Value())
      modifies this, s
      ensures Bms(s.Value(), Value()) == Finish(old(s.Value()), old(Value()))
    {
      joule := Plus(joule, CellHeat(s.iLoad));

      if !warned && AtLeast(s.tCell, T_WARN) {
        warned := true;
      }
      if !warned && AtLeast(joule, E_WARN) {
        warned := true;
      }

      if fc != NONE {
        EnterFaultState(fc, s);
        return;
      }

      if AtLeast(joule, E_FAULT) {
        EnterFaultState(OVERTEMPERATURE, s);
        return;
      }

      s.fault := NONE;

      var i := s.iLoad;
      match state {
        case IDLE =>
          if Above(i, IDLE_THRESHOLD) { state := DISCHARGING; }
          else if Below(i, -IDLE_THRESHOLD) { state := CHARGING; }
        case DISCHARGING =>
          if AtMost(i, IDLE_THRESHOLD) { state := IDLE; }
        case CHARGING =>
          if AtLeast(i, -IDLE_THRESHOLD) { state := IDLE; }
        case FAULT =>
      }
    }

    /** One update cycle in place; false exactly when an overcurrent command is rejected. */
    method Update(s: BatteryState) returns (accepted: bool)
      modifies this, s
      ensures Bms(s.Value(), Value()) == Cycle(old(Bms(s.Value(), Value())))
      ensures accepted <==> old(state == FAULT || !Exceeds(s.iLoad, I_MAX))
    {
      if state == FAULT { return true; }

      if Exceeds(s.iLoad, I_MAX) {
        EnterFaultState(OVERCURRENT, s);
        return false;
      }

      var fc := Step(s);
      ConcludeCycle(s, fc);
      return true;
    }

    method Reset(s: BatteryState)
      modifies this, s
      ensures Bms(s.Value(), Value()) == Cleared(old(Bms(s.Value(), Value())))
    {
      state := IDLE;
      faultCode := NONE;
      detail := NoReport;
      warned := false;
      joule := Fin(0.0);
      s.fault := NONE;
      s.blockCooling := false;
      s.iLoad := Fin(0.0);
    }
  }
}
