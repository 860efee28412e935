/** The daemon side of the command connection (TelemetryServer.cpp): newline framing, a keyword
    parser, and the effect of each command on the shared battery and machine. */
module TelemetryServer {
  import opened BatteryModel
  import opened BmsRuns
  import opened BmsStateMachine
  import opened Doubles
  import opened NanRuns
  import opened Wrappers

  /** `std::stod`: a number, NaN, or None where it throws. A parameter, because decimal parsing is not
      part of this model. */
  type Stod = string -> Option<Num>

  // ----- std::string::find -----

  predicate At(s: string, key: string, j: nat) { j + |key| <= |s| && s[j..j + |key|] == key }

  /** First occurrence of `key` at or after `from`; -1 stands for npos. */
  function Find(s: string, key: string, from: nat): (r: int)
    ensures r == -1 || from <= r <= |s| - |key|
    decreases |s| - from
  {
    if from + |key| > |s| then -1
    else if At(s, key, from) then from
    else Find(s, key, from + 1)
  }

  /** The text between the two quotes that follow a key; empty when either is missing. */
  function ExtractStr(s: string, key: string): string {
    var pos := Find(s, key, 0);
    if pos == -1 then ""
    else
      var q1 := Find(s, "\"", pos + |key|);
      var q2 := Find(s, "\"", q1 + 1);
      if q1 == -1 || q2 == -1 then "" else s[q1 + 1..q2]
  }

  /** The number after the colon that follows a key; zero when either is missing, None on a throw. */
  function ExtractNum(s: string, key: string, stod: Stod): Option<Num> {
    var pos := Find(s, key, 0);
    if pos == -1 then Some(Fin(0.0))
    else
      var col := Find(s, ":", pos + |key|);
      if col == -1 then Some(Fin(0.0)) else stod(s[col + 1..])
  }

  /** What a command line does: nothing, one signal to the daemon, or an uncaught exception. */
  datatype Effect = Ignored | Does(signal: Signal) | Throws

  function SetLoad(n: Num): Signal { if n.Fin? then Ordinary(SetCurrent(n.x)) else SetNaN }

  const COMMAND_KEY := "\"command\""
  const VALUE_KEY := "\"value\""

  function ParseLine(line: string, stod: Stod): Effect {
    var cmd := ExtractStr(line, COMMAND_KEY);
    if cmd == "SET_CURRENT" then
      match ExtractNum(line, VALUE_KEY, stod)
      case Some(v) => Does(SetLoad(v))
      case None => Throws
    else if cmd == "SET_FAULT" then
      if ExtractStr(line, VALUE_KEY) == "THERMAL_RUNAWAY" then Does(Ordinary(BlockCooling)) else Ignored
    else if cmd == "RESET" then Does(Ordinary(ResetEvent))
    else Ignored
  }

  /** `buf.c_str()`: the text up to the first NUL. */
  function CStr(s: string): (c: string)
    ensures c <= s && '\0' !in c && (|c| < |s| ==> s[|c|] == '\0')
  {
    if s == "" || s[0] == '\0' then "" else [s[0]] + CStr(s[1..])
  }

  // ----- The server on values -----

  /** The daemon, the bytes of the unfinished line, and whether the process is still up. */
  datatype Server = Server(bms: Bms, buf: string, up: bool)

  function Perform(sv: Server, e: Effect): Server {
    match e
    case Ignored => sv
    case Does(signal) => sv.(bms := React(sv.bms, signal))
    case Throws => sv.(up := false)
  }

  function Receive(sv: Server, c: char, stod: Stod): Server {
    if c == '\n' then Perform(sv, ParseLine(CStr(sv.buf), stod)).(buf := "")
    else sv.(buf := sv.buf + [c])
  }

  /** What can happen to the server: a byte arrives, or the physics loop ticks. */
  datatype Wire = Byte(c: char) | PhysicsTick

  function WireStep(sv: Server, w: Wire, stod: Stod): Server {
    if !sv.up then sv
    else match w
      case Byte(c) => Receive(sv, c, stod)
      case PhysicsTick => sv.(bms := Cycle(sv.bms))
  }

  function Serve(sv: Server, ws: seq<Wire>, stod: Stod): Server
    decreases |ws|
  {
    if ws == [] then sv else Serve(WireStep(sv, ws[0], stod), ws[1..], stod)
  }

  // ----- The server as it runs -----

  class Connection {
    const state: BatteryState
    const fsm: StateMachine
    var buf: string
    var up: bool

    constructor (state: BatteryState, fsm: StateMachine)
      ensures this.state == state && this.fsm == fsm && buf == "" && up
    {
      this.state, this.fsm, buf, up := state, fsm, "", true;
    }

    function Value(): Server
      reads this, state, fsm
    {
      Server(Bms(state.Value(), fsm.Value()), buf, up)
    }

    method HandleCommand(line: string, stod: Stod)
      modifies this`up, state, fsm
      ensures Value() == Perform(old(Value()), ParseLine(line, stod))
    {
      var cmd := ExtractStr(line, COMMAND_KEY);
      if cmd == "SET_CURRENT" {
        var val := ExtractNum(line, VALUE_KEY, stod);
        if val == None {
          up := false;
          return;
        }
        state.iLoad := val.value;
      } else if cmd == "SET_FAULT" {
        var val := ExtractStr(line, VALUE_KEY);
        if val == "THERMAL_RUNAWAY" { state.blockCooling := true; }
      } else if cmd == "RESET" {
        fsm.Reset(state);
      }
    }

    /** One iteration of the receive loop. */
    method ReceiveByte(c: char, stod: Stod)
      requires up
      modifies this`up, this`buf, state, fsm
      ensures Value() == Receive(old(Value()), c, stod)
    {
      if c == '\n' {
        HandleCommand(CStr(buf), stod);
        buf := "";
      } else {
        buf := buf + [c];
      }
    }

    /** One iteration of the physics loop. */
    method PhysicsLoop()
      requires up
      modifies state, fsm
      ensures Value() == old(Value()).(bms := Cycle(old(Value()).bms))
    {
      var _ := fsm.Update(state);
    }
  }

  // ----- Any bytes at all -----

  /** What the daemon is told by one wire event. */
  function Told(sv: Server, w: Wire, stod: Stod): seq<Signal> {
    match w
    case PhysicsTick => [Ordinary(TickEvent)]
    case Byte(c) =>
      if c != '\n' then []
      else match ParseLine(CStr(sv.buf), stod)
        case Does(signal) => [signal]
        case _ => []
  }

  /** Everything the daemon is told by a wire history, up to an exception. */
  function Signals(sv: Server, ws: seq<Wire>, stod: Stod): seq<Signal>
    decreases |ws|
  {
    if ws == [] || !sv.up then [] else Told(sv, ws[0], stod) + Signals(WireStep(sv, ws[0], stod), ws[1..], stod)
  }

  lemma {:induction false} StepsConcat(m: Bms, a: seq<Signal>, b: seq<Signal>)
    ensures Steps(m, a + b) == Steps(Steps(m, a), b)
    decreases |a|
  {
    if a == [] {
      assert a + b == b;
    } else {
      assert (a + b)[1..] == a[1..] + b;
      StepsConcat(React(m, a[0]), a[1..], b);
    }
  }

  /** Whatever bytes a client sends and however ticks interleave with them, the daemon goes through
      exactly the run of the signals it is told. */
  lemma {:induction false} AnyInputIsARun(sv: Server, ws: seq<Wire>, stod: Stod)
    ensures Serve(sv, ws, stod).bms == Steps(sv.bms, Signals(sv, ws, stod))
    decreases |ws|
  {
    if ws != [] {
      if sv.up {
        var sv1, told := WireStep(sv, ws[0], stod), Told(sv, ws[0], stod);
        AnyInputIsARun(sv1, ws[1..], stod);
        StepsConcat(sv.bms, told, Signals(sv1, ws[1..], stod));
        if told != [] { assert told == [told[0]] && told[1..] == []; }
      } else {
        AnyInputIsARun(sv, ws[1..], stod);
      }
    }
  }

  /** Whatever bytes a client sends: the daemon's bounds hold exactly as long as no cycle outside FAULT
      has found a NaN load, and so always if no command was read as NaN. */
  lemma SafeUnderAnyInput(ws: seq<Wire>, stod: Stod)
    ensures var sv := Server(START, "", true);
            var signals := Signals(sv, ws, stod);
            && (Bounded(Serve(sv, ws, stod).bms) <==> !Poisoned(START, signals))
            && (SetNaN !in signals ==> Bounded(Serve(sv, ws, stod).bms))
  {
    var sv := Server(START, "", true);
    AnyInputIsARun(sv, ws, stod);
    BoundedIffUnpoisoned(Signals(sv, ws, stod));
    if SetNaN !in Signals(sv, ws, stod) { NumbersNeverPoison(START, Signals(sv, ws, stod)); }
  }
}
