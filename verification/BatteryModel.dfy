/** The cell model: a Thevenin 1-RC circuit with a lumped thermal mass, integrated by
    classical fourth-order Runge-Kutta at 1 kHz (BatteryModel.h, BatteryModel.cpp). */
module BatteryModel {
  import opened Doubles
  import opened Reals

  const R0: real := 0.01
  const R1: real := 0.005
  const C1: real := 2000.0
  const Q_NOM: real := 100.0
  const ETA: real := 0.98
  const M_CP: real := 25000.0
  const H_A: real := 10.0
  const T_AMB: real := 25.0
  const I_MAX: real := 250.0
  const T_FAULT: real := 80.0
  const T_WARN: real := 60.0
  const E_WARN: real := 875.0
  const E_FAULT: real := 1375.0
  const SOC_LOW: real := 0.05
  const SOC_HIGH: real := 0.95
  const DT: real := 0.001

  datatype FaultCode = NONE | OVERTEMPERATURE | UNDERVOLTAGE | OVERVOLTAGE | OVERCURRENT

  /** A battery all of whose quantities are numbers. */
  datatype Battery = Battery(soc: real, vTerminal: real, vRc: real, iLoad: real, tCell: real,
                             fault: FaultCode, blockCooling: bool)

  /** The value of a battery state at one instant: any quantity may have become NaN. */
  datatype Cell = Cell(soc: Num, vTerminal: Num, vRc: Num, iLoad: Num, tCell: Num,
                       fault: FaultCode, blockCooling: bool)

  function CellOf(b: Battery): Cell {
    Cell(Fin(b.soc), Fin(b.vTerminal), Fin(b.vRc), Fin(b.iLoad), Fin(b.tCell), b.fault, b.blockCooling)
  }

  function VOcv(soc: real): real { 3.2 + 1.2 * soc }

  /** The record both threads of the daemon share and `Step` updates in place. */
  class BatteryState {
    var soc: Num
    var vTerminal: Num
    var vRc: Num
    var iLoad: Num
    var tCell: Num
    var fault: FaultCode
    var blockCooling: bool

    constructor ()
      ensures Value() == CellOf(INITIAL)
    {
      soc, vTerminal, vRc, iLoad, tCell := Fin(1.0), Fin(3.2), Fin(0.0), Fin(0.0), Fin(25.0);
      fault, blockCooling := NONE, false;
    }

    function Value(): Cell
      reads this
    {
      Cell(soc, vTerminal, vRc, iLoad, tCell, fault, blockCooling)
    }
  }

  const INITIAL: Battery := Battery(1.0, 3.2, 0.0, 0.0, 25.0, NONE, false)

  // ----- The three slopes -----

  function ChargeSlope(i: real): real { -ETA * i / (3600.0 * Q_NOM) }

  function RcSlope(v: real, i: real): real { -v / (R1 * C1) + i / C1 }

  function HeatSlope(t: real, i: real, blocked: bool): real {
    var pHeat := i * i * R0;
    var pCool := if blocked then 0.0 else H_A * (t - T_AMB);
    (pHeat - pCool) / M_CP
  }

  datatype Deriv = Deriv(dSoc: Num, dVRc: Num, dTCell: Num)

  /** The slopes do not depend on the state of charge; a blocked vent takes the temperature out of its
      own slope. */
  function Derivatives(vRc: Num, tCell: Num, i: Num, blockCool: bool): Deriv {
    Deriv(if i.Fin? then Fin(ChargeSlope(i.x)) else NaN,
          if i.Fin? && vRc.Fin? then Fin(RcSlope(vRc.x, i.x)) else NaN,
          if !i.Fin? then NaN
          else if blockCool then Fin(HeatSlope(0.0, i.x, true))
          else if tCell.Fin? then Fin(HeatSlope(tCell.x, i.x, false))
          else NaN)
  }

  // ----- What one step does, in closed form -----

  /** The fourth-order Taylor polynomial of exp(-a): the factor by which one Runge-Kutta
      step of size h multiplies the distance to equilibrium of y' = -rate*y + u, a = rate*h. */
  function Damping(a: real): real {
    1.0 - a + a * a / 2.0 - a * a * a / 6.0 + a * a * a * a / 24.0
  }

  /** Damping of the RC branch (a = DT/(R1*C1)) and of the cooled cell (a = DT*H_A/M_CP). */
  const RC_DAMPING: real := Damping(0.0001)
  const THERMAL_DAMPING: real := Damping(0.0000004)

  /** State of charge drawn by one tick at one ampere. */
  const CHARGE_PER_AMP: real := 0.98 * 0.001 / 360000.0

  function Clamp(x: real): real { if x < 0.0 then 0.0 else if x > 1.0 then 1.0 else x }

  function NextVRc(v: real, i: real): real {
    RC_DAMPING * v + (1.0 - RC_DAMPING) * (R1 * i)
  }

  function NextTCell(t: real, i: real, blocked: bool): real {
    if blocked then t + i * i * R0 * DT / M_CP
    else T_AMB + THERMAL_DAMPING * (t - T_AMB) + (1.0 - THERMAL_DAMPING) * (i * i * R0 / H_A)
  }

  /** The battery after one accepted step, every field from the exact solution of its
      own linear equation. */
  function Integrated(b: Battery): Battery {
    var soc := Clamp(b.soc - CHARGE_PER_AMP * b.iLoad);
    var vRc := NextVRc(b.vRc, b.iLoad);
    b.(soc := soc, vRc := vRc, tCell := NextTCell(b.tCell, b.iLoad, b.blockCooling),
       vTerminal := VOcv(soc) - b.iLoad * R0 - vRc)
  }

  /** Safety verdict on an integrated battery, most severe first. */
  function Verdict(b: Battery): FaultCode {
    if b.tCell > T_FAULT then OVERTEMPERATURE
    else if b.soc < SOC_LOW then UNDERVOLTAGE
    else if b.soc > SOC_HIGH && b.iLoad < 0.0 then OVERVOLTAGE
    else NONE
  }

  /** The cell after one accepted step: NaN spreads from the load to every quantity, and stays in each
      quantity it has reached. */
  function Stepped(c: Cell): Cell {
    var i := c.iLoad;
    var soc := if c.soc.Fin? && i.Fin? then Fin(Clamp(c.soc.x - CHARGE_PER_AMP * i.x)) else NaN;
    var vRc := if c.vRc.Fin? && i.Fin? then Fin(NextVRc(c.vRc.x, i.x)) else NaN;
    var tCell := if c.tCell.Fin? && i.Fin? then Fin(NextTCell(c.tCell.x, i.x, c.blockCooling)) else NaN;
    c.(soc := soc, vRc := vRc, tCell := tCell, vTerminal := Terminal(soc, i, vRc))
  }

  function Terminal(soc: Num, i: Num, vRc: Num): Num {
    if soc.Fin? && i.Fin? && vRc.Fin? then Fin(VOcv(soc.x) - i.x * R0 - vRc.x) else NaN
  }

  function CellVerdict(c: Cell): FaultCode {
    if Above(c.tCell, T_FAULT) then OVERTEMPERATURE
    else if Below(c.soc, SOC_LOW) then UNDERVOLTAGE
    else if Above(c.soc, SOC_HIGH) && Below(c.iLoad, 0.0) then OVERVOLTAGE
    else NONE
  }

  lemma SteppedNumbers(b: Battery)
    ensures Stepped(CellOf(b)) == CellOf(Integrated(b)) && CellVerdict(CellOf(b)) == Verdict(b)
  {}

  // ----- The four-stage code computes the closed form -----

  /** (1 - Damping(a)) / a: the mean slope of a step relative to its first slope. */
  function MeanSlope(a: real): real { 1.0 - a / 2.0 + a * a / 6.0 - a * a * a / 24.0 }

  /** The weighted slope of the four stages on a linear equation y' = -rate*y + u. */
  lemma StageSlopes(y: real, u: real, rate: real, h: real, k1: real, k2: real, k3: real, k4: real)
    requires k1 == -rate * y + u
    requires k2 == -rate * (y + 0.5 * h * k1) + u
    requires k3 == -rate * (y + 0.5 * h * k2) + u
    requires k4 == -rate * (y + h * k3) + u
    ensures h / 6.0 * (k1 + 2.0 * k2 + 2.0 * k3 + k4) == h * k1 * MeanSlope(rate * h)
  {
    var a := rate * h;
    assert k2 == k1 - a / 2.0 * k1;
    assert k3 == k1 - a / 2.0 * k2;
    assert k4 == k1 - a * k3;
    assert k3 == k1 * (1.0 - a / 2.0 + a * a / 4.0);
    assert k4 == k1 * (1.0 - a + a * a / 2.0 - a * a * a / 4.0);
    assert k1 + 2.0 * k2 + 2.0 * k3 + k4 == k1 * (6.0 - 3.0 * a + a * a - a * a * a / 4.0);
  }

  /** A step with that slope shrinks the distance to the equilibrium u/rate by exactly Damping(a). */
  lemma LinearStep(y: real, u: real, rate: real, h: real)
    ensures var a := rate * h;
            rate * (y + h * (u - rate * y) * MeanSlope(a)) ==
            Damping(a) * (rate * y) + (1.0 - Damping(a)) * u
  {
    var a := rate * h;
    var g, w := MeanSlope(a), rate * y;
    var x := h * (u - w) * g;
    assert rate * (y + x) == w + rate * x;
    assert rate * x == (1.0 - Damping(a)) * (u - w) by { DampingLoss(rate, h, u - w); }
    Mix(w, u, Damping(a));
  }

  lemma DampingLoss(rate: real, h: real, x: real)
    ensures rate * (h * x * MeanSlope(rate * h)) == (1.0 - Damping(rate * h)) * x
  {
    assert 1.0 - Damping(rate * h) == (rate * h) * MeanSlope(rate * h);
  }

  lemma Mix(w: real, u: real, p: real)
    ensures w + (1.0 - p) * (u - w) == p * w + (1.0 - p) * u
  {}

  lemma RcStep(v: real, i: real, k1: real, k2: real, k3: real, k4: real)
    requires k1 == RcSlope(v, i) && k2 == RcSlope(v + 0.5 * DT * k1, i)
    requires k3 == RcSlope(v + 0.5 * DT * k2, i) && k4 == RcSlope(v + DT * k3, i)
    ensures v + DT / 6.0 * (k1 + 2.0 * k2 + 2.0 * k3 + k4) == NextVRc(v, i)
  {
    assert R1 * C1 == 10.0;
    StageSlopes(v, i / C1, 0.1, DT, k1, k2, k3, k4);
    LinearStep(v, i / C1, 0.1, DT);
  }

  lemma ThermalStep(t: real, i: real, k1: real, k2: real, k3: real, k4: real)
    requires k1 == HeatSlope(t, i, false) && k2 == HeatSlope(t + 0.5 * DT * k1, i, false)
    requires k3 == HeatSlope(t + 0.5 * DT * k2, i, false) && k4 == HeatSlope(t + DT * k3, i, false)
    ensures t + DT / 6.0 * (k1 + 2.0 * k2 + 2.0 * k3 + k4) == NextTCell(t, i, false)
  {
    var u := i * i * R0 / M_CP + 0.0004 * T_AMB;
    StageSlopes(t, u, 0.0004, DT, k1, k2, k3, k4);
    LinearStep(t, u, 0.0004, DT);
  }

  /** A stage's argument: the start value advanced along a slope. */
  function Advance(y: Num, h: real, k: Num): Num { Plus(y, Scale(h, k)) }

  /** Weighted sum of four slopes added to the start value. */
  function Combine(y: Num, k1: Num, k2: Num, k3: Num, k4: Num): Num {
    Advance(y, DT / 6.0, Plus(Plus(Plus(k1, Scale(2.0, k2)), Scale(2.0, k3)), k4))
  }

  /** The stages of one step, each slope taken where the previous one leads. */
  predicate Stages(c: Cell, k1: Deriv, k2: Deriv, k3: Deriv, k4: Deriv) {
    && k1 == Derivatives(c.vRc, c.tCell, c.iLoad, c.blockCooling)
    && k2 == Derivatives(Advance(c.vRc, 0.5 * DT, k1.dVRc), Advance(c.tCell, 0.5 * DT, k1.dTCell),
                         c.iLoad, c.blockCooling)
    && k3 == Derivatives(Advance(c.vRc, 0.5 * DT, k2.dVRc), Advance(c.tCell, 0.5 * DT, k2.dTCell),
                         c.iLoad, c.blockCooling)
    && k4 == Derivatives(Advance(c.vRc, DT, k3.dVRc), Advance(c.tCell, DT, k3.dTCell),
                         c.iLoad, c.blockCooling)
  }

  /** The combined updates are the closed forms, and NaN exactly where the start value or the load is. */
  lemma StagesSolve(c: Cell, k1: Deriv, k2: Deriv, k3: Deriv, k4: Deriv)
    requires Stages(c, k1, k2, k3, k4)
    ensures Combine(c.soc, k1.dSoc, k2.dSoc, k3.dSoc, k4.dSoc) == Drawn(c.soc, c.iLoad)
    ensures Combine(c.vRc, k1.dVRc, k2.dVRc, k3.dVRc, k4.dVRc) == Stepped(c).vRc
    ensures Combine(c.tCell, k1.dTCell, k2.dTCell, k3.dTCell, k4.dTCell) == Stepped(c).tCell
  {
    ChargeStages(c, k1, k2, k3, k4);
    RcStages(c, k1, k2, k3, k4);
    HeatStages(c, k1, k2, k3, k4);
  }

  lemma ChargeStages(c: Cell, k1: Deriv, k2: Deriv, k3: Deriv, k4: Deriv)
    requires Stages(c, k1, k2, k3, k4)
    ensures Combine(c.soc, k1.dSoc, k2.dSoc, k3.dSoc, k4.dSoc) == Drawn(c.soc, c.iLoad)
  {}

  lemma RcStages(c: Cell, k1: Deriv, k2: Deriv, k3: Deriv, k4: Deriv)
    requires Stages(c, k1, k2, k3, k4)
    ensures Combine(c.vRc, k1.dVRc, k2.dVRc, k3.dVRc, k4.dVRc) == Stepped(c).vRc
  {
    if c.iLoad.Fin? && c.vRc.Fin? {
      RcStep(c.vRc.x, c.iLoad.x, k1.dVRc.x, k2.dVRc.x, k3.dVRc.x, k4.dVRc.x);
    }
  }

  lemma HeatStages(c: Cell, k1: Deriv, k2: Deriv, k3: Deriv, k4: Deriv)
    requires Stages(c, k1, k2, k3, k4)
    ensures Combine(c.tCell, k1.dTCell, k2.dTCell, k3.dTCell, k4.dTCell) == Stepped(c).tCell
  {
    if c.iLoad.Fin? && c.tCell.Fin? && !c.blockCooling {
      ThermalStep(c.tCell.x, c.iLoad.x, k1.dTCell.x, k2.dTCell.x, k3.dTCell.x, k4.dTCell.x);
    }
  }

  /** The charge a step leaves, before clamping. */
  function Drawn(soc: Num, i: Num): Num { Plus(soc, Scale(-CHARGE_PER_AMP, i)) }

  /** The four stages of one Runge-Kutta step and their combination. */
  method RungeKutta(s: BatteryState) returns (soc: Num, vRc: Num, tCell: Num)
    ensures soc == Drawn(s.soc, s.iLoad)
    ensures vRc == Stepped(s.Value()).vRc
    ensures tCell == Stepped(s.Value()).tCell
  {
    var i := s.iLoad;
    var k1 := Derivatives(s.vRc, s.tCell, i, s.blockCooling);

    var v2 := Advance(s.vRc, 0.5 * DT, k1.dVRc);
    var t2 := Advance(s.tCell, 0.5 * DT, k1.dTCell);
    var k2 := Derivatives(v2, t2, i, s.blockCooling);

    var v3 := Advance(s.vRc, 0.5 * DT, k2.dVRc);
    var t3 := Advance(s.tCell, 0.5 * DT, k2.dTCell);
    var k3 := Derivatives(v3, t3, i, s.blockCooling);

    var v4 := Advance(s.vRc, DT, k3.dVRc);
    var t4 := Advance(s.tCell, DT, k3.dTCell);
    var k4 := Derivatives(v4, t4, i, s.blockCooling);

    StagesSolve(s.Value(), k1, k2, k3, k4);
    soc := Combine(s.soc, k1.dSoc, k2.dSoc, k3.dSoc, k4.dSoc);
    vRc := Combine(s.vRc, k1.dVRc, k2.dVRc, k3.dVRc, k4.dVRc);
    tCell := Combine(s.tCell, k1.dTCell, k2.dTCell, k3.dTCell, k4.dTCell);
  }

  /** One call of the integrator: rejects an overcurrent untouched, otherwise integrates. */
  method Step(s: BatteryState) returns (fc: FaultCode)
    modifies s
    ensures Exceeds(old(s.iLoad), I_MAX) ==> fc == OVERCURRENT && s.Value() == old(s.Value())
    ensures !Exceeds(old(s.iLoad), I_MAX) ==> s.Value() == Stepped(old(s.Value())) && fc == CellVerdict(s.Value())
  {
    var i := s.iLoad;
    if Exceeds(i, I_MAX) {
      return OVERCURRENT;
    }

    var soc, vRc, tCell := RungeKutta(s);
    s.soc, s.vRc, s.tCell := soc, vRc, tCell;

    if Below(s.soc, 0.0) { s.soc := Fin(0.0); }
    if Above(s.soc, 1.0) { s.soc := Fin(1.0); }

    s.vTerminal := Terminal(s.soc, i, s.vRc);

    if Above(s.tCell, T_FAULT) { return OVERTEMPERATURE; }
    if Below(s.soc, SOC_LOW) { return UNDERVOLTAGE; }
    if Above(s.soc, SOC_HIGH) && Below(i, 0.0) { return OVERVOLTAGE; }
    return NONE;
  }

  // ----- Bounds of one step -----

  lemma DampingRange()
    ensures 0.9999 < RC_DAMPING < 0.99990001
    ensures 0.9999996 < THERMAL_DAMPING < 0.9999996000002
  {}

  /** The RC voltage stays inside the band the largest accepted current can sustain. */
  lemma VRcBand(v: real, i: real)
    requires -1.25 <= v <= 1.25 && Abs(i) <= I_MAX
    ensures -1.25 <= NextVRc(v, i) <= 1.25
  {}

  /** Heat balance of one step from a cell no colder than ambient: the stored heat never grows
      by more than the Joule heat, grows by exactly that when cooling is blocked, and the cell
      stays at or above ambient. */
  lemma HeatBalance(t: real, i: real, blocked: bool)
    requires T_AMB <= t
    ensures T_AMB <= NextTCell(t, i, blocked)
    ensures M_CP * (NextTCell(t, i, blocked) - t) <= i * i * R0 * DT
    ensures blocked ==> M_CP * (NextTCell(t, i, blocked) - t) == i * i * R0 * DT
  {
    SquareNonNegative(i);
  }

  /** Joule heat released by one tick at current i. */
  function TickHeat(i: real): real { i * i * R0 * DT }

  /** With an open vent a cell above ambient stays above it and loses some of the heat. */
  lemma OpenVentLoses(t: real, i: real)
    requires T_AMB < t
    ensures T_AMB < NextTCell(t, i, false)
    ensures M_CP * NextTCell(t, i, false) - M_CP * t < TickHeat(i)
  {
    SquareNonNegative(i);
  }

  /** Heat stored in the cell. */
  function Stored(b: Battery): real { M_CP * b.tCell }

  /** Stored heat grew by at most the released heat, and by exactly that if cooling was blocked. */
  predicate HeatAccounted(before: real, after: real, released: real, blocked: bool) {
    after - before <= released && (blocked ==> after - before == released)
  }

  lemma StoredHeat(b: Battery)
    requires T_AMB <= b.tCell
    ensures HeatAccounted(Stored(b), Stored(Integrated(b)), TickHeat(b.iLoad), b.blockCooling)
  {
    HeatBalance(b.tCell, b.iLoad, b.blockCooling);
    var t := NextTCell(b.tCell, b.iLoad, b.blockCooling);
    assert M_CP * t - M_CP * b.tCell == M_CP * (t - b.tCell);
  }
}
