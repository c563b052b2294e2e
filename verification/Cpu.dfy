/** A 6502 in binary mode: registers, flags, 64K of memory and the effect of every documented data instruction. */
module Cpu {
  import opened Bits
  import opened Isa

  type word = n: int | 0 <= n < 0x10000
  type Memory = m: seq<byte> | |m| == 0x10000 witness seq(0x10000, _ => 0)

  datatype State = State(
    a: byte, x: byte, y: byte, sp: byte,
    c: bool, z: bool, n: bool, v: bool, d: bool, i: bool,
    mem: Memory)

  function Logic(op: BitOp, p: byte, q: byte): byte {
    assert Pow2(8) == 256;
    Bitwise(op, p, q, 8)
  }

  /** A zero-page pointer; its high byte is fetched without leaving page zero. */
  function Pointer(m: Memory, at: byte): word {
    var low: int, high: int := m[at], m[(at + 1) % 256];
    low + 256 * high
  }

  function Address(mode: Mode, operand: word, s: State): word {
    match mode
    case ZeroPage => operand % 256
    case ZeroPageX => (operand + s.x) % 256
    case ZeroPageY => (operand + s.y) % 256
    case AbsoluteX => (operand + s.x) % 0x10000
    case AbsoluteY => (operand + s.y) % 0x10000
    case IndexedIndirectX => Pointer(s.mem, (operand + s.x) % 256)
    case IndirectIndexedY => (Pointer(s.mem, operand % 256) + s.y) % 0x10000
    case _ => operand
  }

  function Fetch(mode: Mode, operand: word, s: State): byte {
    match mode
    case Accumulator => s.a
    case Immediate => operand % 256
    case _ => s.mem[Address(mode, operand, s)]
  }

  function StoreAt(s: State, address: word, value: byte): State {
    s.(mem := s.mem[address := value])
  }

  function SetNZ(s: State, value: byte): State {
    s.(z := value == 0, n := value >= 128)
  }

  function SetA(s: State, value: byte): State { SetNZ(s.(a := value), value) }
  function SetX(s: State, value: byte): State { SetNZ(s.(x := value), value) }
  function SetY(s: State, value: byte): State { SetNZ(s.(y := value), value) }

  /** Write back the result of a shift, increment or decrement. */
  function PutBack(mode: Mode, operand: word, s: State, value: byte): State {
    if mode == Accumulator then SetA(s, value)
    else SetNZ(StoreAt(s, Address(mode, operand, s), value), value)
  }

  function Wrap(n: nat): byte
    requires n < 512
  {
    if n >= 256 then n - 256 else n
  }

  function Carry(c: bool): int { if c then 1 else 0 }

  function Add(s: State, value: byte): State {
    var sum := s.a + value + Carry(s.c);
    var r := Wrap(sum);
    SetA(s.(c := sum > 255, v := (s.a >= 128) == (value >= 128) && (r >= 128) != (s.a >= 128)), r)
  }

  function Subtract(s: State, value: byte): State {
    var difference := s.a - value - Carry(!s.c);
    var r := if difference < 0 then difference + 256 else difference;
    SetA(s.(c := difference >= 0, v := (s.a >= 128) != (value >= 128) && (r >= 128) != (s.a >= 128)), r)
  }

  function Compare(s: State, register: byte, value: byte): State {
    SetNZ(s.(c := register >= value), if register >= value then register - value else register - value + 256)
  }

  function Push(s: State, value: byte): State {
    StoreAt(s, 0x100 + s.sp, value).(sp := if s.sp == 0 then 255 else s.sp - 1)
  }

  function Popped(s: State): State { s.(sp := (s.sp + 1) % 256) }

  function Top(s: State): byte { s.mem[0x100 + (s.sp + 1) % 256] }

  function Flag(set_: bool, weight: byte): byte { if set_ then weight else 0 }

  function PackFlags(s: State): byte {
    Flag(s.n, 128) + Flag(s.v, 64) + 32 + 16 + Flag(s.d, 8) + Flag(s.i, 4) + Flag(s.z, 2) + Flag(s.c, 1)
  }

  function UnpackFlags(s: State, p: byte): State {
    s.(n := p / 128 % 2 == 1, v := p / 64 % 2 == 1, d := p / 8 % 2 == 1,
       i := p / 4 % 2 == 1, z := p / 2 % 2 == 1, c := p % 2 == 1)
  }

  // What each group of data instructions does.

  datatype Group = Moves | Transfers | Logicals | Compares | Sums | Counts | Rotates | Adjusts | Stacks | FlagSets | Controls

  function GroupOf(m: Mnemonic): Group {
    match m
    case LDA | LDX | LDY | STA | STX | STY => Moves
    case TAX | TAY | TSX | TXA | TYA | TXS => Transfers
    case AND | ORA | EOR | BIT => Logicals
    case CMP | CPX | CPY => Compares
    case ADC | SBC => Sums
    case INX | INY | DEX | DEY => Counts
    case ASL | ROL | LSR | ROR => Rotates
    case INC | DEC => Adjusts
    case PHA | PHP | PLA | PLP => Stacks
    case CLC | SEC | CLD | SED | CLI | SEI | CLV => FlagSets
    case BCC | BCS | BEQ | BMI | BNE | BPL | BVC | BVS | BRK | JMP | JSR | NOP | RTI | RTS => Controls
  }

  predicate IsMove(m: Mnemonic) { GroupOf(m) == Moves }

  predicate IsTransfer(m: Mnemonic) { GroupOf(m) == Transfers }

  predicate IsLogical(m: Mnemonic) { GroupOf(m) == Logicals }

  predicate IsCompare(m: Mnemonic) { GroupOf(m) == Compares }

  predicate IsArithmetic(m: Mnemonic) { GroupOf(m) == Sums }

  predicate IsCount(m: Mnemonic) { GroupOf(m) == Counts }

  predicate IsRotate(m: Mnemonic) { GroupOf(m) == Rotates }

  predicate IsAdjust(m: Mnemonic) { GroupOf(m) == Adjusts }

  predicate IsStack(m: Mnemonic) { GroupOf(m) == Stacks }

  predicate IsFlag(m: Mnemonic) { GroupOf(m) == FlagSets }

  function MoveExec(m: Mnemonic, at: word, value: byte, s: State): State {
    if m.LDA? then SetA(s, value)
    else if m.LDX? then SetX(s, value)
    else if m.LDY? then SetY(s, value)
    else if m.STA? then StoreAt(s, at, s.a)
    else if m.STX? then StoreAt(s, at, s.x)
    else StoreAt(s, at, s.y)
  }

  function TransferExec(m: Mnemonic, s: State): State {
    if m.TAX? then SetX(s, s.a)
    else if m.TAY? then SetY(s, s.a)
    else if m.TSX? then SetX(s, s.sp)
    else if m.TXA? then SetA(s, s.x)
    else if m.TYA? then SetA(s, s.y)
    else s.(sp := s.x)
  }

  function LogicalExec(m: Mnemonic, value: byte, s: State): State {
    if m.AND? then SetA(s, Logic(BitAnd, s.a, value))
    else if m.ORA? then SetA(s, Logic(BitOr, s.a, value))
    else if m.EOR? then SetA(s, Logic(BitXor, s.a, value))
    else s.(z := Logic(BitAnd, s.a, value) == 0, n := value >= 128, v := value / 64 % 2 == 1)
  }

  function CompareExec(m: Mnemonic, value: byte, s: State): State {
    if m.CMP? then Compare(s, s.a, value)
    else if m.CPX? then Compare(s, s.x, value)
    else Compare(s, s.y, value)
  }

  function ArithmeticExec(m: Mnemonic, value: byte, s: State): State {
    if m.ADC? then Add(s, value)
    else Subtract(s, value)
  }

  function CountExec(m: Mnemonic, s: State): State {
    if m.INX? then SetX(s, Wrap(s.x + 1))
    else if m.INY? then SetY(s, Wrap(s.y + 1))
    else if m.DEX? then SetX(s, Wrap(s.x + 255))
    else SetY(s, Wrap(s.y + 255))
  }

  function CarryOut(m: Mnemonic, value: byte): bool { if m.ASL? || m.ROL? then value >= 128 else value % 2 == 1 }

  function Shifted(m: Mnemonic, value: byte, c: bool): byte {
    if m.ASL? then Wrap(2 * value)
    else if m.ROL? then Wrap(2 * value + Carry(c))
    else if m.LSR? then value / 2
    else value / 2 + 128 * Carry(c)
  }

  function RotateExec(mode: Mode, m: Mnemonic, operand: word, value: byte, s: State): State {
    PutBack(mode, operand, s.(c := CarryOut(m, value)), Shifted(m, value, s.c))
  }

  function AdjustExec(mode: Mode, m: Mnemonic, operand: word, value: byte, s: State): State {
    if m.INC? then PutBack(mode, operand, s, Wrap(value + 1))
    else PutBack(mode, operand, s, Wrap(value + 255))
  }

  function StackExec(m: Mnemonic, s: State): State {
    if m.PHA? then Push(s, s.a)
    else if m.PHP? then Push(s, PackFlags(s))
    else if m.PLA? then SetA(Popped(s), Top(s))
    else UnpackFlags(Popped(s), Top(s))
  }

  function FlagExec(m: Mnemonic, s: State): State {
    if m.CLC? then s.(c := false)
    else if m.SEC? then s.(c := true)
    else if m.CLD? then s.(d := false)
    else if m.SED? then s.(d := true)
    else if m.CLI? then s.(i := false)
    else if m.SEI? then s.(i := true)
    else s.(v := false)
  }

  /** Effect of a data instruction. Control transfers leave the state to the machine that runs the program. */
  function Exec(op: Op, operand: word, s: State): State {
    var m, mode, at, value := op.mnemonic, op.mode, Address(op.mode, operand, s), Fetch(op.mode, operand, s);
    if IsMove(m) then MoveExec(m, at, value, s)
    else if IsTransfer(m) then TransferExec(m, s)
    else if IsLogical(m) then LogicalExec(m, value, s)
    else if IsCompare(m) then CompareExec(m, value, s)
    else if IsArithmetic(m) then ArithmeticExec(m, value, s)
    else if IsCount(m) then CountExec(m, s)
    else if IsRotate(m) then RotateExec(mode, m, operand, value, s)
    else if IsAdjust(m) then AdjustExec(mode, m, operand, value, s)
    else if IsStack(m) then StackExec(m, s)
    else if IsFlag(m) then FlagExec(m, s)
    else s
  }

  function IsBranch(m: Mnemonic): bool {
    m in {BCC, BCS, BEQ, BNE, BMI, BPL, BVC, BVS}
  }

  /** Whether a conditional branch is taken. */
  function Taken(m: Mnemonic, s: State): bool {
    match m
    case BCC => !s.c
    case BCS => s.c
    case BEQ => s.z
    case BNE => !s.z
    case BMI => s.n
    case BPL => !s.n
    case BVC => !s.v
    case _ => s.v
  }
}
