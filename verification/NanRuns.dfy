/** Runs of the battery daemon in which the load may be set to NaN: `std::stod` reads "NaN" as a number,
    and no comparison in BatteryModel.cpp or BmsStateMachine.cpp rejects it. */
module NanRuns {
  import opened BatteryModel
  import opened BmsRuns
  import opened BmsStateMachine
  import opened Doubles
  import opened Reals

  /** An event of the daemon, or a command that sets the load current to NaN. */
  datatype Signal = Ordinary(event: Event) | SetNaN

  function React(m: Bms, s: Signal): Bms {
    match s
    case SetNaN => m.(cell := m.cell.(iLoad := NaN))
    case Ordinary(e) =>
      match e
      case TickEvent => Cycle(m)
      case SetCurrent(v) => m.(cell := m.cell.(iLoad := Fin(v)))
      case BlockCooling => m.(cell := m.cell.(blockCooling := true))
      case ResetEvent => Cleared(m)
  }

  function Steps(m: Bms, ss: seq<Signal>): Bms
    decreases |ss|
  {
    if ss == [] then m else Steps(React(m, ss[0]), ss[1..])
  }

  const START: Bms := BmsOf(POWER_ON)

  /** A cycle that integrates a NaN load. */
  predicate Poisons(m: Bms, s: Signal) { s == Ordinary(TickEvent) && m.fsm.state != FAULT && m.cell.iLoad == NaN }

  predicate Poisoned(m: Bms, ss: seq<Signal>)
    decreases |ss|
  {
    ss != [] && (Poisons(m, ss[0]) || Poisoned(React(m, ss[0]), ss[1..]))
  }

  // ----- Until a NaN is integrated -----

  /** The same daemon, except that the load may be NaN. */
  predicate Same(m: Bms, d: Daemon) {
    m == BmsOf(d) || m == BmsOf(d).(cell := CellOf(d.bat).(iLoad := NaN))
  }

  function AsEvent(s: Signal): Event { if s == SetNaN then SetCurrent(0.0) else s.event }

  function AsEvents(ss: seq<Signal>): seq<Event> {
    if ss == [] then [] else [AsEvent(ss[0])] + AsEvents(ss[1..])
  }

  lemma ReactSame(m: Bms, d: Daemon, s: Signal)
    requires Same(m, d) && !Poisons(m, s)
    ensures Same(React(m, s), Apply(d, AsEvent(s)))
  {
    CycleOnNumbers(d);
  }

  /** A NaN that is overwritten before it is integrated leaves no trace: the daemon does what it would
      have done with any other number in its place. */
  lemma {:induction false} UnpoisonedRun(m: Bms, d: Daemon, ss: seq<Signal>)
    requires Same(m, d) && !Poisoned(m, ss)
    ensures Same(Steps(m, ss), Run(d, AsEvents(ss)))
    decreases |ss|
  {
    if ss != [] {
      ReactSame(m, d, ss[0]);
      UnpoisonedRun(React(m, ss[0]), Apply(d, AsEvent(ss[0])), ss[1..]);
      assert AsEvents(ss)[1..] == AsEvents(ss[1..]);
    }
  }

  /** Without a NaN command nothing is ever poisoned. */
  lemma {:induction false} NumbersNeverPoison(m: Bms, ss: seq<Signal>)
    requires m.cell.iLoad.Fin? && SetNaN !in ss
    ensures !Poisoned(m, ss)
    decreases |ss|
  {
    if ss != [] { NumbersNeverPoison(React(m, ss[0]), ss[1..]); }
  }

  // ----- From then on -----

  predicate Lost(c: Cell) { c.soc == NaN && c.vRc == NaN && c.tCell == NaN }

  lemma {:induction false} LossIsPermanent(m: Bms, ss: seq<Signal>)
    requires Lost(m.cell)
    ensures Lost(Steps(m, ss).cell)
    decreases |ss|
  {
    if ss != [] { LossIsPermanent(React(m, ss[0]), ss[1..]); }
  }

  /** One integrated NaN and charge, RC voltage and temperature are NaN for good, whatever is commanded
      afterwards; otherwise none of them ever is. */
  lemma {:induction false} LostIffPoisoned(m: Bms, d: Daemon, ss: seq<Signal>)
    requires Same(m, d)
    ensures Lost(Steps(m, ss).cell) <==> Poisoned(m, ss)
    decreases |ss|
  {
    if ss != [] {
      var m1 := React(m, ss[0]);
      if Poisons(m, ss[0]) {
        LossIsPermanent(m1, ss[1..]);
      } else {
        ReactSame(m, d, ss[0]);
        LostIffPoisoned(m1, Apply(d, AsEvent(ss[0])), ss[1..]);
      }
    }
  }

  /** Every quantity but the load is a number within the bounds of a reachable state, and neither the
      energy fault nor the energy warning has been missed. */
  predicate Bounded(m: Bms) {
    && m.cell.soc.Fin? && 0.0 <= m.cell.soc.x <= 1.0
    && m.cell.vRc.Fin? && -1.25 <= m.cell.vRc.x <= 1.25
    && m.cell.tCell.Fin? && T_AMB <= m.cell.tCell.x
    && m.fsm.joule.Fin? && 0.0 <= m.fsm.joule.x < E_FAULT + 0.625
    && (m.fsm.joule.x >= E_FAULT ==> m.fsm.state == FAULT)
    && (m.fsm.joule.x >= E_WARN ==> m.fsm.warned)
  }

  /** From power-on the daemon's bounds hold exactly as long as no cycle outside FAULT has found a NaN
      load. */
  lemma BoundedIffUnpoisoned(ss: seq<Signal>)
    ensures Bounded(Steps(START, ss)) <==> !Poisoned(START, ss)
  {
    LostIffPoisoned(START, POWER_ON, ss);
    if !Poisoned(START, ss) {
      UnpoisonedRun(START, POWER_ON, ss);
      ReachableStates(AsEvents(ss));
    }
  }

  /** One NaN command and one tick are enough. */
  lemma OneNanIsEnough()
    ensures !Bounded(Steps(START, [SetNaN, Ordinary(TickEvent)]))
  {
    var ss := [SetNaN, Ordinary(TickEvent)];
    assert ss[1..][0] == Ordinary(TickEvent);
    assert Poisoned(React(START, SetNaN), ss[1..]);
    BoundedIffUnpoisoned(ss);
  }

  // ----- What protection is left -----

  predicate Unprotected(m: Bms) {
    Lost(m.cell) && m.fsm.joule == NaN && (m.fsm.state != FAULT || m.fsm.faultCode == OVERCURRENT)
  }

  lemma PoisonUnprotects(m: Bms)
    requires Poisons(m, Ordinary(TickEvent))
    ensures Unprotected(Cycle(m)) && Cycle(m).fsm.state == m.fsm.state && Cycle(m).fsm.warned == m.fsm.warned
  {}

  lemma {:induction false} StaysUnprotected(m: Bms, ss: seq<Signal>)
    requires Unprotected(m) && Ordinary(ResetEvent) !in ss
    ensures Unprotected(Steps(m, ss)) && Steps(m, ss).fsm.warned == m.fsm.warned
    decreases |ss|
  {
    if ss != [] { StaysUnprotected(React(m, ss[0]), ss[1..]); }
  }

  /** The cycle that integrates a NaN faults nothing itself, and after it no warning and no fault but
      overcurrent can follow before a reset, whatever the load. */
  lemma NothingButOvercurrent(m: Bms, ss: seq<Signal>)
    requires Poisons(m, Ordinary(TickEvent)) && Ordinary(ResetEvent) !in ss
    ensures Cycle(m).fsm.state == m.fsm.state
    ensures var r := Steps(Cycle(m), ss);
            && r.fsm.warned == m.fsm.warned && r.fsm.joule == NaN && Lost(r.cell)
            && (r.fsm.state == FAULT ==> r.fsm.faultCode == OVERCURRENT)
  {
    PoisonUnprotects(m);
    StaysUnprotected(Cycle(m), ss);
  }

  /** Cycles that find a numeric load of at least 5 A. */
  function ActiveCycles(m: Bms, ss: seq<Signal>): nat
    decreases |ss|
  {
    if ss == [] then 0
    else (if ss[0] == Ordinary(TickEvent) && m.cell.iLoad.Fin? && Abs(m.cell.iLoad.x) >= IDLE_THRESHOLD then 1 else 0)
         + ActiveCycles(React(m, ss[0]), ss[1..])
  }

  /** The accumulator counts, and the energy limit is enforced. */
  predicate Metered(m: Bms) {
    m.cell.iLoad.Fin? && m.fsm.joule.Fin? && (m.fsm.joule.x >= E_FAULT ==> m.fsm.state == FAULT)
  }

  lemma MeteredStep(m: Bms, s: Signal)
    requires Lost(m.cell) && Metered(m) && s != SetNaN && s != Ordinary(ResetEvent)
    ensures var r := React(m, s);
            && Lost(r.cell) && Metered(r) && (m.fsm.state == FAULT ==> r.fsm.state == FAULT)
            && (r.fsm.state != FAULT ==> r.fsm.joule.x >= m.fsm.joule.x + 0.00025 * ActiveCycles(m, [s]) as real)
  {
    assert ActiveCycles(React(m, s), [s][1..]) == 0;
    if m.cell.iLoad.Fin? { TickHeatRange(m.cell.iLoad.x); }
  }

  lemma {:induction false} MeteredRun(m: Bms, ss: seq<Signal>)
    requires Lost(m.cell) && Metered(m) && SetNaN !in ss && Ordinary(ResetEvent) !in ss
    ensures var r := Steps(m, ss);
            && Metered(r) && (m.fsm.state == FAULT ==> r.fsm.state == FAULT)
            && (r.fsm.state != FAULT ==> r.fsm.joule.x >= m.fsm.joule.x + 0.00025 * ActiveCycles(m, ss) as real)
    decreases |ss|
  {
    if ss != [] {
      MeteredStep(m, ss[0]);
      MeteredRun(React(m, ss[0]), ss[1..]);
      assert ActiveCycles(React(m, ss[0]), [ss[0]][1..]) == 0;
    }
  }

  /** A reset brings the energy limit back, though charge and temperature stay NaN: 5,500,000 active
      cycles at numeric loads still end in FAULT. */
  lemma EnergyLimitReturnsWithReset(m: Bms, ss: seq<Signal>)
    requires Lost(m.cell) && SetNaN !in ss && Ordinary(ResetEvent) !in ss
    requires ActiveCycles(Cleared(m), ss) >= 5_500_000
    ensures Steps(Cleared(m), ss).fsm.state == FAULT
  {
    MeteredRun(Cleared(m), ss);
  }
}
