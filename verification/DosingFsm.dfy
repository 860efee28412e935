/** The four-state dosing machine with its volume ledger (controller/src/DosingFsm.cpp). */
module DosingFsm {
  import opened Wrappers
  import opened Reals

  datatype DosingState = IDLE | DOSING | PAUSE | COMPLETE

  /** Bytes of an RFID code. */
  type Byte = n: nat | n < 0x100
  type Epc = seq<Byte>

  /** What one control cycle is given. */
  datatype Cycle = Cycle(valve: bool, reset: bool, flow: real, rfid: Option<Epc>, dt: real)

  datatype Dosing = Dosing(state: DosingState, target: real, accumulated: real, tag: Epc)

  function Start(target: real): Dosing { Dosing(IDLE, target, 0.0, []) }

  /** Volume that passes in one cycle. */
  function Increment(c: Cycle): real { c.flow * (c.dt / 60.0) }

  function Next(d: Dosing, c: Cycle): Dosing {
    if c.reset then Start(d.target)
    else match d.state
      case IDLE => if c.rfid.Some? && c.valve then d.(state := DOSING, tag := c.rfid.value) else d
      case DOSING =>
        var total := d.accumulated + Increment(c);
        d.(accumulated := total, state := if total >= d.target then COMPLETE else if c.valve then DOSING else PAUSE)
      case PAUSE => if c.valve then d.(state := DOSING) else d
      case COMPLETE => d
  }

  class Controller {
    var state: DosingState
    const target: real
    var accumulated: real
    var activeTag: Epc

    constructor (target: real)
      ensures Value() == Start(target)
    {
      state, this.target, accumulated, activeTag := IDLE, target, 0.0, [];
    }

    function Value(): Dosing
      reads this
    {
      Dosing(state, target, accumulated, activeTag)
    }

    method Reset()
      modifies this
      ensures Value() == Start(target)
    {
      state := IDLE;
      accumulated := 0.0;
      activeTag := [];
    }

    method Update(valve: bool, reset: bool, flow: real, rfid: Option<Epc>, dt: real)
      modifies this
      ensures Value() == Next(old(Value()), Cycle(valve, reset, flow, rfid, dt))
    {
      if reset {
        Reset();
        return;
      }
      match state {
        case IDLE =>
          if rfid.Some? && valve {
            activeTag := rfid.value;
            state := DOSING;
          }
        case DOSING =>
          accumulated := accumulated + flow * (dt / 60.0);
          if accumulated >= target {
            state := COMPLETE;
          } else if !valve {
            state := PAUSE;
          }
        case PAUSE =>
          if valve { state := DOSING; }
        case COMPLETE =>
      }
    }
  }

  // ----- Runs -----

  function Run(d: Dosing, cs: seq<Cycle>): Dosing
    decreases |cs|
  {
    if cs == [] then d else Run(Next(d, cs[0]), cs[1..])
  }

  predicate NoReset(cs: seq<Cycle>) { forall i :: 0 <= i < |cs| ==> !cs[i].reset }

  /** Sum of the volume over the cycles of a run entered in DOSING. */
  function Dispensed(d: Dosing, cs: seq<Cycle>): real
    decreases |cs|
  {
    if cs == [] then 0.0
    else (if d.state == DOSING then cs[0].flow * (cs[0].dt / 60.0) else 0.0) + Dispensed(Next(d, cs[0]), cs[1..])
  }

  /** Flow and elapsed time are never negative and no cycle passes more than `most`. */
  predicate Physical(cs: seq<Cycle>, most: real) {
    forall i :: 0 <= i < |cs| ==> cs[i].flow >= 0.0 && cs[i].dt >= 0.0 && Increment(cs[i]) <= most
  }

  /** The ledger: since the last reset the accumulated volume is the volume dispensed. */
  lemma {:induction false} Ledger(d: Dosing, cs: seq<Cycle>)
    requires NoReset(cs)
    ensures Run(d, cs).accumulated == d.accumulated + Dispensed(d, cs)
    decreases |cs|
  {
    if cs != [] { Ledger(Next(d, cs[0]), cs[1..]); }
  }

  lemma {:induction false} RunConcat(d: Dosing, a: seq<Cycle>, b: seq<Cycle>)
    ensures Run(d, a + b) == Run(Run(d, a), b)
    decreases |a|
  {
    if a == [] {
      assert a + b == b;
    } else {
      assert (a + b)[1..] == a[1..] + b;
      RunConcat(Next(d, a[0]), a[1..], b);
    }
  }

  lemma {:induction false} TargetIsFixed(d: Dosing, cs: seq<Cycle>)
    ensures Run(d, cs).target == d.target
    decreases |cs|
  {
    if cs != [] { TargetIsFixed(Next(d, cs[0]), cs[1..]); }
  }

  /** The ledger restarts at every reset: whatever came before, the accumulated volume is what was
      dispensed since. */
  lemma LedgerSinceReset(target: real, history: seq<Cycle>, reset: Cycle, cs: seq<Cycle>)
    requires reset.reset && NoReset(cs)
    ensures Run(Start(target), history + [reset] + cs).accumulated == Dispensed(Start(target), cs)
  {
    var before := Run(Start(target), history);
    TargetIsFixed(Start(target), history);
    RunConcat(Start(target), history + [reset], cs);
    RunConcat(Start(target), history, [reset]);
    assert [reset][1..] == [];
    assert Run(before, [reset]) == Start(target);
    Ledger(Start(target), cs);
  }

  /** What holds in every reachable state of a dose towards a positive target. */
  predicate Consistent(d: Dosing, most: real) {
    match d.state
    case IDLE => d.accumulated == 0.0 && d.tag == []
    case COMPLETE => d.target <= d.accumulated < d.target + most
    case _ => 0.0 <= d.accumulated < d.target
  }

  lemma IncrementNonNegative(c: Cycle)
    requires c.flow >= 0.0 && c.dt >= 0.0
    ensures Increment(c) >= 0.0
  {
    MulMono(0.0, c.flow, c.dt / 60.0);
  }

  /** From a start with a positive target, under any cycles whose volume is bounded by `most`: IDLE is
      empty, DOSING and PAUSE are below the target, COMPLETE has reached it and overshoots by less
      than `most`. */
  lemma {:induction false} ReachableIsConsistent(d: Dosing, cs: seq<Cycle>, most: real)
    requires d.target > 0.0 && Consistent(d, most) && Physical(cs, most)
    ensures Consistent(Run(d, cs), most) && Run(d, cs).target == d.target
    decreases |cs|
  {
    if cs != [] {
      IncrementNonNegative(cs[0]);
      ReachableIsConsistent(Next(d, cs[0]), cs[1..], most);
    }
  }

  /** The tag set when a dose starts is the tag until a reset, through every pause and completion. */
  lemma {:induction false} TagIsFixedWithinDose(d: Dosing, cs: seq<Cycle>)
    requires d.state != IDLE && NoReset(cs)
    ensures Run(d, cs).state != IDLE && Run(d, cs).tag == d.tag
    decreases |cs|
  {
    if cs != [] { TagIsFixedWithinDose(Next(d, cs[0]), cs[1..]); }
  }

  /** A dose overshoots by less than the increment of the cycle that completed it. */
  lemma {:induction false} OvershootIsLastIncrement(d: Dosing, cs: seq<Cycle>) returns (k: nat)
    requires d.target > 0.0 && NoReset(cs) && d.state != COMPLETE && d.accumulated < d.target
    requires Run(d, cs).state == COMPLETE
    ensures k < |cs| && Run(d, cs[..k]).state == DOSING && Run(d, cs[..k + 1]).state == COMPLETE
    ensures d.target <= Run(d, cs).accumulated < d.target + Increment(cs[k])
    decreases |cs|
  {
    var d1 := Next(d, cs[0]);
    if d1.state == COMPLETE {
      k := 0;
      assert cs[..1][1..] == [] && cs[..0] == [];
      CompleteLatches(d1, cs[1..]);
    } else {
      var j := OvershootIsLastIncrement(d1, cs[1..]);
      k := j + 1;
      assert cs[..k][1..] == cs[1..][..j] && cs[..k + 1][1..] == cs[1..][..j + 1];
    }
  }

  lemma {:induction false} CompleteLatches(d: Dosing, cs: seq<Cycle>)
    requires d.state == COMPLETE && NoReset(cs)
    ensures Run(d, cs) == d
    decreases |cs|
  {
    if cs != [] { CompleteLatches(d, cs[1..]); }
  }

  // ----- Progress -----

  /** Number of cycles of a run entered in DOSING. */
  function DosingCycles(d: Dosing, cs: seq<Cycle>): nat
    decreases |cs|
  {
    if cs == [] then 0 else (if d.state == DOSING then 1 else 0) + DosingCycles(Next(d, cs[0]), cs[1..])
  }

  /** Every cycle entered in DOSING has at least this flow and duration. */
  predicate AtLeast(d: Dosing, cs: seq<Cycle>, flow: real, dt: real)
    decreases |cs|
  {
    cs != [] ==>
      && (d.state == DOSING ==> cs[0].flow >= flow && cs[0].dt >= dt)
      && AtLeast(Next(d, cs[0]), cs[1..], flow, dt)
  }

  lemma {:induction false} DispensedAtLeast(d: Dosing, cs: seq<Cycle>, flow: real, dt: real, step: real)
    requires flow >= 0.0 && dt >= 0.0 && AtLeast(d, cs, flow, dt) && step == flow * (dt / 60.0)
    ensures Times(DosingCycles(d, cs), step) <= Dispensed(d, cs)
    decreases |cs|
  {
    if cs != [] {
      DispensedAtLeast(Next(d, cs[0]), cs[1..], flow, dt, step);
      if d.state == DOSING { IncrementAtLeast(cs[0], flow, dt, step); }
    }
  }

  lemma IncrementAtLeast(c: Cycle, flow: real, dt: real, step: real)
    requires 0.0 <= flow <= c.flow && 0.0 <= dt <= c.dt && step == flow * (dt / 60.0)
    ensures step <= Increment(c)
  {
    MulMono(flow, c.flow, dt / 60.0);
    MulMono(dt / 60.0, c.dt / 60.0, c.flow);
  }

  /** A dose that is under way or finished and has dispensed its target is finished. */
  lemma {:induction false} CompleteWhenFull(d: Dosing, cs: seq<Cycle>)
    requires NoReset(cs) && d.target > 0.0 && d.state != IDLE
    requires d.state != COMPLETE ==> d.accumulated < d.target
    ensures Run(d, cs).state != COMPLETE ==> Run(d, cs).accumulated < d.target
    decreases |cs|
  {
    if cs != [] {
      TagIsFixedWithinDose(d, [cs[0]]);
      CompleteWhenFull(Next(d, cs[0]), cs[1..]);
    }
  }

  /** Progress: with flow at least q > 0 and cycles of at least delta > 0 while dosing, the dose is
      COMPLETE once n cycles were entered in DOSING with n * q * delta / 60 >= target, however many
      pauses are interleaved. */
  lemma DoseCompletes(target: real, cs: seq<Cycle>, q: real, delta: real)
    requires target > 0.0 && q > 0.0 && delta > 0.0
    requires NoReset(cs) && AtLeast(Start(target), cs, q, delta)
    requires Times(DosingCycles(Start(target), cs), q * (delta / 60.0)) >= target
    ensures Run(Start(target), cs).state == COMPLETE
  {
    DispensedAtLeast(Start(target), cs, q, delta, q * (delta / 60.0));
    Ledger(Start(target), cs);
    IdleOrFull(Start(target), cs);
  }

  lemma {:induction false} IdleOrFull(d: Dosing, cs: seq<Cycle>)
    requires NoReset(cs) && d.target > 0.0 && d.state == IDLE && d.accumulated == 0.0
    ensures Run(d, cs).accumulated >= d.target ==> Run(d, cs).state == COMPLETE
    decreases |cs|
  {
    if cs != [] {
      var d1 := Next(d, cs[0]);
      if d1.state == IDLE {
        IdleOrFull(d1, cs[1..]);
      } else {
        CompleteWhenFull(d1, cs[1..]);
      }
    }
  }

  // ----- The state of a dose, read off its history -----

  /** A scanned tag and an open valve. */
  predicate Opens(c: Cycle) { c.valve && c.rfid.Some? }

  /** Cycle k opens a dose, and from it on there has been no reset. */
  predicate OpensAt(cs: seq<Cycle>, k: nat) { k < |cs| && Opens(cs[k]) && NoReset(cs[k..]) }

  lemma LastCycle(target: real, cs: seq<Cycle>, before: seq<Cycle>, c: Cycle)
    requires cs == before + [c]
    ensures Run(Start(target), cs) == Next(Run(Start(target), before), c)
    ensures Run(Start(target), before).target == target
  {
    RunConcat(Start(target), before, [c]);
    TargetIsFixed(Start(target), before);
    assert [c][1..] == [];
  }

  lemma OpensAtExtends(cs: seq<Cycle>, before: seq<Cycle>, c: Cycle, k: nat)
    requires cs == before + [c]
    ensures k < |before| ==> (OpensAt(cs, k) <==> OpensAt(before, k) && !c.reset)
    ensures k == |before| ==> (OpensAt(cs, k) <==> Opens(c) && !c.reset)
  {
    if k < |before| {
      var rest := before[k..];
      assert cs[k..] == rest + [c];
      assert NoReset(rest + [c]) <==> NoReset(rest) && !c.reset by {
        if NoReset(rest + [c]) {
          forall i | 0 <= i < |rest| ensures !rest[i].reset { assert (rest + [c])[i] == rest[i]; }
          assert (rest + [c])[|rest|] == c;
        }
      }
    }
    if k == |before| { assert cs[k..] == [c]; }
  }

  /** A dose is under way or finished exactly when some cycle since the last reset brought a tag while the
      valve was open. */
  lemma {:induction false} DoseStartedIff(target: real, cs: seq<Cycle>)
    ensures Run(Start(target), cs).state != IDLE <==> exists k: nat :: OpensAt(cs, k)
    decreases |cs|
  {
    if cs != [] {
      var before, c := cs[..|cs| - 1], cs[|cs| - 1];
      LastCycle(target, cs, before, c);
      DoseStartedIff(target, before);
      forall k: nat ensures k < |before| ==> (OpensAt(cs, k) <==> OpensAt(before, k) && !c.reset) {
        OpensAtExtends(cs, before, c, k);
      }
      OpensAtExtends(cs, before, c, |before|);
      StartStep(Run(Start(target), before), c);
    }
  }

  lemma StartStep(d: Dosing, c: Cycle)
    ensures Next(d, c).state != IDLE <==> !c.reset && (d.state != IDLE || Opens(c))
  {}

  /** The recorded tag is the one of the first such cycle, which found the machine in IDLE. */
  lemma {:induction false} TagIsFirstScanned(target: real, cs: seq<Cycle>) returns (k: nat)
    requires Run(Start(target), cs).state != IDLE
    ensures OpensAt(cs, k) && cs[k].rfid == Some(Run(Start(target), cs).tag)
    ensures forall j :: 0 <= j < k ==> !OpensAt(cs, j)
    ensures Run(Start(target), cs[..k]).state == IDLE
    decreases |cs|
  {
    if cs == [] { assert false; }
    var before, c := cs[..|cs| - 1], cs[|cs| - 1];
    LastCycle(target, cs, before, c);
    var d := Run(Start(target), before);
    StartStep(d, c);
    if d.state == IDLE {
      k := |before|;
      assert cs[..k] == before;
      OpensAtExtends(cs, before, c, k);
      DoseStartedIff(target, before);
      forall j | 0 <= j < k ensures !OpensAt(cs, j) { OpensAtExtends(cs, before, c, j); }
    } else {
      k := TagIsFirstScanned(target, before);
      assert cs[..k] == before[..k];
      OpensAtExtends(cs, before, c, k);
      forall j | 0 <= j < k ensures !OpensAt(cs, j) { OpensAtExtends(cs, before, c, j); }
      assert Next(d, c).tag == d.tag;
    }
  }

  /** An unfinished dose runs or pauses as the last cycle's valve was: it pauses when the valve shuts and
      resumes when it opens. */
  lemma ValveDecides(target: real, cs: seq<Cycle>)
    requires Run(Start(target), cs).state in {DOSING, PAUSE}
    ensures cs != []
    ensures Run(Start(target), cs).state == DOSING <==> cs[|cs| - 1].valve
  {
    if cs == [] {
      assert false;
    } else {
      LastCycle(target, cs, cs[..|cs| - 1], cs[|cs| - 1]);
    }
  }
}
