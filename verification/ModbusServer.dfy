/** The thirteen holding registers: five setters on the C++ side (controller/src/ModbusServer.cpp)
    and the Python decoder (collector/modbus_reader.py). */
module ModbusServer {
  import opened Wrappers
  import opened DosingFsm

  const COUNT: nat := 13

  // ----- Encoding one value -----

  /** Unsigned words, by their values. */
  type Word16 = n: nat | n < 0x1_0000
  type Word32 = n: nat | n < 0x1_0000_0000

  /** The packing expression `(hi << 8) | lo` on sign-extended chars, by value (PackedValue): the low byte
      is lo, the high byte is hi unless lo is negative as a char. */
  function PackPair(hi: Byte, lo: Byte): Word16 { (if lo < 0x80 then hi else 0xFF) * 0x100 + lo }

  /** `(r >> 8) & 0xFF` and `r & 0xFF`, by value (UnpackedValue). */
  function HighByte(r: Word16): Byte { r / 0x100 }

  function LowByte(r: Word16): Byte { r % 0x100 }

  /** The low byte always survives; the high byte survives unless the low one is negative as a char. */
  lemma PairRoundTrip(hi: Byte, lo: Byte)
    ensures LowByte(PackPair(hi, lo)) == lo
    ensures HighByte(PackPair(hi, lo)) == if lo < 0x80 then hi else 0xFF
  {}

  /** `ml >> 16` and `ml & 0xFFFF`, by value (SplitValue). */
  function HighHalf(ml: Word32): Word16 { ml / 0x1_0000 }

  function LowHalf(ml: Word32): Word16 { ml % 0x1_0000 }

  /** `(hi << 16) | lo`, by value (HalvesValue). */
  function Join(hi: Word16, lo: Word16): nat { hi * 0x1_0000 + lo }

  lemma HalvesRoundTrip(ml: Word32)
    ensures Join(HighHalf(ml), LowHalf(ml)) == ml
  {}

  // ----- The same expressions on bits -----

  /** `static_cast<uint16_t>(char)` where char is signed. */
  function SignExtend(b: bv8): bv16 { if b < 0x80 then b as bv16 else 0xFF00 | (b as bv16) }

  function Value8(b: bv8): Byte { b as int }

  function Value16(b: bv16): Word16 { b as int }

  function Value32(b: bv32): Word32 { b as int }

  function Bytes(high: bv8, low: bv8): bv16 { ((high as bv16) << 8) | (low as bv16) }

  function Halves(hi: bv16, lo: bv16): bv32 { ((hi as bv32) << 16) | (lo as bv32) }

  lemma ShiftedSign(b: bv8)
    ensures SignExtend(b) << 8 == (b as bv16) << 8
  {}

  lemma NegativeLow(high: bv16, low: bv16)
    requires high & 0xFF == 0
    ensures high | (0xFF00 | low) == 0xFF00 | low
  {}

  lemma PackedBits(hi: bv8, lo: bv8)
    ensures (SignExtend(hi) << 8) | SignExtend(lo) == Bytes(if lo < 0x80 then hi else 0xFF, lo)
  {
    ShiftedSign(hi);
    if lo >= 0x80 { NegativeLow((hi as bv16) << 8, lo as bv16); }
  }

  lemma SignValue(b: bv8)
    ensures b < 0x80 <==> Value8(b) < 0x80
  {}

  lemma BytesValue(high: bv8, low: bv8)
    ensures Value16(Bytes(high, low)) == Value8(high) * 0x100 + Value8(low)
  {}

  /** Shift and or on sign-extended chars build exactly the word that PackPair gives by value. */
  lemma PackedValue(hi: bv8, lo: bv8)
    ensures Value16((SignExtend(hi) << 8) | SignExtend(lo)) == PackPair(Value8(hi), Value8(lo))
  {
    PackedBits(hi, lo);
    SignValue(lo);
    BytesValue(if lo < 0x80 then hi else 0xFF, lo);
  }

  lemma SplitBits(r: bv16, high: bv8, low: bv8)
    requires high == (r >> 8) as bv8 && low == (r & 0xFF) as bv8
    ensures r == Bytes(high, low) && (r >> 8) & 0xFF == high as bv16
  {}

  lemma SplitBytes(word: Word16, high: Byte, low: Byte)
    requires word == high * 0x100 + low
    ensures HighByte(word) == high && LowByte(word) == low
  {}

  lemma ReadBytes(r: bv16, high: bv8, low: bv8)
    requires r == Bytes(high, low)
    ensures Value8(high) == HighByte(Value16(r)) && Value8(low) == LowByte(Value16(r))
  {
    BytesValue(high, low);
    SplitBytes(Value16(r), Value8(high), Value8(low));
  }

  /** The decoder's shift and masks. */
  lemma UnpackedValue(r: bv16, high: bv8, low: bv8)
    requires high == (r >> 8) as bv8 && low == (r & 0xFF) as bv8
    ensures Value8(high) == HighByte(Value16(r)) && Value8(low) == LowByte(Value16(r))
  {
    SplitBits(r, high, low);
    ReadBytes(r, high, low);
  }

  /** Rejoining the halves of the volume. */
  lemma HalvesValue(hi: bv16, lo: bv16)
    ensures Value32(Halves(hi, lo)) == Join(Value16(hi), Value16(lo))
  {}

  lemma SplitHalves(ml: bv32, hi: bv16, lo: bv16)
    requires hi == (ml >> 16) as bv16 && lo == (ml & 0xFFFF) as bv16
    ensures ml == Halves(hi, lo)
  {}

  lemma SplitJoin(hi: Word16, lo: Word16)
    ensures HighHalf(Join(hi, lo)) == hi && LowHalf(Join(hi, lo)) == lo
  {}

  /** Splitting the volume into two registers. */
  lemma SplitValue(ml: bv32, hi: bv16, lo: bv16)
    requires hi == (ml >> 16) as bv16 && lo == (ml & 0xFFFF) as bv16
    ensures Value16(hi) == HighHalf(Value32(ml)) && Value16(lo) == LowHalf(Value32(ml))
  {
    SplitHalves(ml, hi, lo);
    HalvesValue(hi, lo);
    SplitJoin(Value16(hi), Value16(lo));
  }

  // ----- The flow -----

  /** Conversion of a double to uint16_t is defined only for values that truncate into range. */
  predicate Representable(x: real) { -1.0 < x * 10.0 < 65536.0 }

  function Truncate(x: real): int { if x >= 0.0 then x.Floor else -((-x).Floor) }

  function FlowRegister(x: real): Word16
    requires Representable(x)
  {
    Truncate(x * 10.0)
  }

  function FlowOf(r: Word16): real { r as real / 10.0 }

  /** Fixed point loses less than a tenth, and never rounds up. */
  lemma FlowRoundTrip(x: real)
    requires Representable(x) && x >= 0.0
    ensures 0.0 <= x - FlowOf(FlowRegister(x)) < 0.1
  {}

  // ----- The register file -----

  function ByteAt(epc: Epc, j: nat): Byte { if j < |epc| then epc[j] else 0 }

  function TagRegister(epc: Epc, i: nat): Word16 { PackPair(ByteAt(epc, 2 * i), ByteAt(epc, 2 * i + 1)) }

  function StateCode(s: DosingState): Word16 {
    match s
    case IDLE => 0
    case DOSING => 1
    case PAUSE => 2
    case COMPLETE => 3
  }

  datatype Op =
    | SetFlowRate(flow: real)
    | SetValveState(open: bool)
    | SetTotalVolume(ml: Word32)
    | SetRfidTag(epc: Epc)
    | SetDosingState(state: DosingState)

  /** What the conversions in the setters demand of their callers. */
  predicate Defined(op: Op) { op.SetFlowRate? ==> Representable(op.flow) }

  type Registers = r: seq<Word16> | |r| == COUNT witness seq(COUNT, _ => 0)

  /** Register i after a setter. */
  function Store(r: Registers, op: Op): Registers
    requires Defined(op)
  {
    match op
    case SetFlowRate(x) => r[0 := FlowRegister(x)]
    case SetValveState(open) => r[1 := if open then 1 else 0]
    case SetTotalVolume(ml) => r[2 := HighHalf(ml)][3 := LowHalf(ml)]
    case SetRfidTag(epc) =>
      seq(COUNT, j requires 0 <= j < COUNT => if 4 <= j < 12 then TagRegister(epc, j - 4) else r[j])
    case SetDosingState(s) => r[12 := StateCode(s)]
  }

  class Server {
    const regs: array<Word16>
    var valveCmd: bool
    var resetCmd: bool

    constructor ()
      ensures Valid() && fresh(regs)
      ensures regs[..] == seq(COUNT, _ => 0) && !valveCmd && !resetCmd
    {
      regs := new Word16[COUNT](_ => 0);
      valveCmd, resetCmd := false, false;
    }

    ghost predicate Valid()
      reads this
    {
      regs.Length == COUNT
    }

    method SetFlow(mlPerMin: real)
      requires Valid() && Representable(mlPerMin)
      modifies regs
      ensures regs[..] == Store(old(regs[..]), SetFlowRate(mlPerMin))
    {
      regs[0] := FlowRegister(mlPerMin);
    }

    method SetValve(open: bool)
      requires Valid()
      modifies regs
      ensures regs[..] == Store(old(regs[..]), SetValveState(open))
    {
      regs[1] := if open then 1 else 0;
    }

    method SetVolume(ml: Word32)
      requires Valid()
      modifies regs
      ensures regs[..] == Store(old(regs[..]), SetTotalVolume(ml))
    {
      regs[2] := HighHalf(ml);
      regs[3] := LowHalf(ml);
    }

    /** Packs sixteen bytes into eight registers, two to a register. */
    method SetTag(epc: Epc)
      requires Valid()
      modifies regs
      ensures regs[..] == Store(old(regs[..]), SetRfidTag(epc))
    {
      for i := 0 to 8
        invariant forall j :: 0 <= j < i ==> regs[4 + j] == TagRegister(epc, j)
        invariant forall j :: (0 <= j < 4 || 4 + i <= j < COUNT) ==> regs[j] == old(regs[j])
      {
        var hi: Byte := if i * 2 < |epc| then epc[i * 2] else 0;
        var lo: Byte := if i * 2 + 1 < |epc| then epc[i * 2 + 1] else 0;
        regs[4 + i] := PackPair(hi, lo);
      }
    }

    method SetState(s: DosingState)
      requires Valid()
      modifies regs
      ensures regs[..] == Store(old(regs[..]), SetDosingState(s))
    {
      regs[12] := StateCode(s);
    }
  }

  // ----- The decoder -----

  datatype Snapshot = Snapshot(flow: real, valve: Word16, volume: nat, state: string, rfid: Epc)

  function StateName(code: Word16): string {
    if code == 0 then "IDLE"
    else if code == 1 then "DOSING"
    else if code == 2 then "PAUSE"
    else if code == 3 then "COMPLETE"
    else "UNKNOWN"
  }

  function NameOf(s: DosingState): string {
    match s
    case IDLE => "IDLE"
    case DOSING => "DOSING"
    case PAUSE => "PAUSE"
    case COMPLETE => "COMPLETE"
  }

  function StripLeft(s: Epc): Epc { if s != [] && s[0] == 0 then StripLeft(s[1..]) else s }

  function StripRight(s: Epc): (r: Epc)
    ensures |r| <= |s| && r == s[..|r|] && (r != [] ==> r[|r| - 1] != 0)
  {
    if s != [] && s[|s| - 1] == 0 then StripRight(s[..|s| - 1]) else s
  }

  /** `strip("\x00")`. */
  function Strip(s: Epc): Epc { StripRight(StripLeft(s)) }

  function TagByte(r: Registers, j: nat): Byte
    requires j < 16
  {
    if j % 2 == 0 then HighByte(r[4 + j / 2]) else LowByte(r[4 + j / 2])
  }

  function TagBytes(r: Registers): Epc { seq(16, j requires 0 <= j < 16 => TagByte(r, j)) }

  function Decode(r: Registers): Snapshot {
    Snapshot(FlowOf(r[0]), r[1], Join(r[2], r[3]), StateName(r[12]), Strip(TagBytes(r)))
  }

  method ParseRegisters(regs: seq<Word16>) returns (result: Result<Snapshot>)
    ensures result.Failure? <==> |regs| < COUNT
    ensures result.Success? ==> result.value == Decode(regs[..COUNT])
  {
    if |regs| < COUNT {
      return Failure("too few registers");
    }
    ghost var r: Registers := regs[..COUNT];
    var flow := FlowOf(regs[0]);
    var valve := regs[1];
    var volume := Join(regs[2], regs[3]);
    var epcBytes: Epc := [];
    for i := 0 to 8
      invariant epcBytes == TagBytes(r)[..2 * i]
    {
      epcBytes := epcBytes + [HighByte(regs[4 + i])];
      epcBytes := epcBytes + [LowByte(regs[4 + i])];
    }
    assert TagBytes(r)[..16] == TagBytes(r);
    return Success(Snapshot(flow, valve, volume, StateName(regs[12]), Strip(epcBytes)));
  }

  // ----- The tag -----

  /** The tags that survive: at most sixteen bytes, no NUL at either end, and no byte in an odd place
      that is negative as a char unless the byte before it is 0xFF. */
  predicate TagFits(tag: Epc) {
    && |tag| <= 16
    && (tag != [] ==> tag[0] != 0 && tag[|tag| - 1] != 0)
    && (forall j :: 0 <= j < |tag| && j % 2 == 1 ==> tag[j] < 0x80 || tag[j - 1] == 0xFF)
  }

  predicate HoldsTag(r: Registers, tag: Epc) {
    forall i :: 0 <= i < 8 ==> r[4 + i] == TagRegister(tag, i)
  }

  lemma TagByteIs(r: Registers, tag: Epc, j: nat)
    requires HoldsTag(r, tag) && j < 16
    ensures j % 2 == 1 ==> TagByte(r, j) == ByteAt(tag, j)
    ensures j % 2 == 0 ==> TagByte(r, j) == if ByteAt(tag, j + 1) < 0x80 then ByteAt(tag, j) else 0xFF
  {
    var i := j / 2;
    assert r[4 + i] == TagRegister(tag, i);
    PairRoundTrip(ByteAt(tag, 2 * i), ByteAt(tag, 2 * i + 1));
  }

  function Zeros(n: nat): Epc { seq(n, _ => 0) }

  lemma {:induction false} StripRightZeros(s: Epc, n: nat)
    requires s == [] || s[|s| - 1] != 0
    ensures StripRight(s + Zeros(n)) == s
  {
    if n == 0 {
      assert s + Zeros(0) == s;
    } else {
      var t := s + Zeros(n);
      assert t[..|t| - 1] == s + Zeros(n - 1);
      StripRightZeros(s, n - 1);
    }
  }

  lemma {:induction false} StripLeftZeros(n: nat)
    ensures StripLeft(Zeros(n)) == []
  {
    if n > 0 {
      assert Zeros(n)[1..] == Zeros(n - 1);
      StripLeftZeros(n - 1);
    }
  }

  lemma StripPadded(tag: Epc, n: nat)
    requires tag != [] ==> tag[0] != 0 && tag[|tag| - 1] != 0
    ensures Strip(tag + Zeros(n)) == tag
  {
    if tag == [] {
      assert tag + Zeros(n) == Zeros(n);
      StripLeftZeros(n);
    } else {
      assert (tag + Zeros(n))[0] == tag[0];
      StripRightZeros(tag, n);
    }
  }

  lemma {:induction false} StripLeftStart(s: Epc)
    ensures |StripLeft(s)| <= |s| && (StripLeft(s) != [] ==> StripLeft(s)[0] != 0)
  {
    if s != [] && s[0] == 0 { StripLeftStart(s[1..]); }
  }

  /** A stripped text has no NUL at either end and is no longer than the original. */
  lemma StripEnds(s: Epc)
    ensures var t := Strip(s); |t| <= |s| && (t != [] ==> t[0] != 0 && t[|t| - 1] != 0)
  {
    StripLeftStart(s);
  }

  lemma FittingTagSurvives(r: Registers, tag: Epc)
    requires HoldsTag(r, tag) && TagFits(tag)
    ensures Strip(TagBytes(r)) == tag
  {
    forall j | 0 <= j < 16 ensures TagByte(r, j) == ByteAt(tag, j) { TagByteIs(r, tag, j); }
    assert TagBytes(r) == tag + Zeros(16 - |tag|);
    StripPadded(tag, 16 - |tag|);
  }

  lemma SurvivingTagFits(r: Registers, tag: Epc)
    requires HoldsTag(r, tag) && Strip(TagBytes(r)) == tag
    ensures TagFits(tag)
  {
    var bytes := TagBytes(r);
    StripEnds(bytes);
    if tag != [] {
      TagByteIs(r, tag, 0);
      assert bytes[0] != 0 && StripLeft(bytes) == bytes;
      forall j | 0 <= j < |tag| && j % 2 == 1 ensures tag[j] < 0x80 || tag[j - 1] == 0xFF {
        TagByteIs(r, tag, j - 1);
        assert tag[j - 1] == bytes[j - 1];
      }
    }
  }

  // ----- Histories -----

  /** The values last set, starting from the zeroed registers. */
  datatype Shadow = Shadow(flow: real, valveOpen: bool, volume: Word32, tag: Epc, state: DosingState)

  const BLANK: Shadow := Shadow(0.0, false, 0, [], IDLE)

  function Track(sh: Shadow, op: Op): Shadow {
    match op
    case SetFlowRate(x) => sh.(flow := x)
    case SetValveState(open) => sh.(valveOpen := open)
    case SetTotalVolume(ml) => sh.(volume := ml)
    case SetRfidTag(epc) => sh.(tag := epc)
    case SetDosingState(s) => sh.(state := s)
  }

  predicate AllDefined(ops: seq<Op>) { forall i :: 0 <= i < |ops| ==> Defined(ops[i]) }

  function LastSet(sh: Shadow, ops: seq<Op>): Shadow
    decreases |ops|
  {
    if ops == [] then sh else LastSet(Track(sh, ops[0]), ops[1..])
  }

  function StoreAll(r: Registers, ops: seq<Op>): Registers
    requires AllDefined(ops)
    decreases |ops|
  {
    if ops == [] then r else StoreAll(Store(r, ops[0]), ops[1..])
  }

  predicate Holds(r: Registers, sh: Shadow) {
    && Representable(sh.flow) && r[0] == FlowRegister(sh.flow)
    && r[1] == (if sh.valveOpen then 1 else 0)
    && r[2] == HighHalf(sh.volume) && r[3] == LowHalf(sh.volume)
    && HoldsTag(r, sh.tag)
    && r[12] == StateCode(sh.state)
  }

  lemma BlankHolds()
    ensures Holds(seq(COUNT, _ => 0), BLANK)
  {
    assert PackPair(0, 0) == 0 && HighHalf(0) == 0 && LowHalf(0) == 0;
    assert FlowRegister(0.0) == 0;
  }

  lemma StoreKeepsHolding(r: Registers, sh: Shadow, op: Op)
    requires Holds(r, sh) && Defined(op)
    ensures Holds(Store(r, op), Track(sh, op))
  {
    if op.SetRfidTag? {
      assert HoldsTag(Store(r, op), op.epc);
    } else {
      var t := Store(r, op);
      assert forall j :: 4 <= j < 12 ==> t[j] == r[j];
    }
  }

  lemma {:induction false} RegistersHoldLastSet(r: Registers, sh: Shadow, ops: seq<Op>)
    requires Holds(r, sh) && AllDefined(ops)
    ensures Holds(StoreAll(r, ops), LastSet(sh, ops))
    decreases |ops|
  {
    if ops != [] {
      StoreKeepsHolding(r, sh, ops[0]);
      RegistersHoldLastSet(Store(r, ops[0]), Track(sh, ops[0]), ops[1..]);
    }
  }

  /** The snapshot shows the volume exactly, the flow to within a tenth below, the valve and the state by
      name, and the tag exactly if and only if it fits. */
  predicate Shows(snap: Snapshot, sh: Shadow) {
    && snap.volume == sh.volume
    && snap.valve == (if sh.valveOpen then 1 else 0)
    && snap.state == NameOf(sh.state)
    && (sh.flow >= 0.0 ==> 0.0 <= sh.flow - snap.flow < 0.1)
    && (snap.rfid == sh.tag <==> TagFits(sh.tag))
  }

  /** Whenever it is taken, a snapshot shows every field as last set before it. */
  lemma SnapshotDecodesLastSet(ops: seq<Op>)
    requires AllDefined(ops)
    ensures Shows(Decode(StoreAll(seq(COUNT, _ => 0), ops)), LastSet(BLANK, ops))
  {
    BlankHolds();
    RegistersHoldLastSet(seq(COUNT, _ => 0), BLANK, ops);
    HeldIsDecoded(StoreAll(seq(COUNT, _ => 0), ops), LastSet(BLANK, ops));
  }

  lemma HeldIsDecoded(r: Registers, sh: Shadow)
    requires Holds(r, sh)
    ensures Shows(Decode(r), sh)
  {
    HalvesRoundTrip(sh.volume);
    if sh.flow >= 0.0 { FlowRoundTrip(sh.flow); }
    if TagFits(sh.tag) { FittingTagSurvives(r, sh.tag); }
    if Strip(TagBytes(r)) == sh.tag { SurvivingTagFits(r, sh.tag); }
  }
}
