/** The documented NMOS 6502 instruction set: which opcode names which mnemonic and addressing mode. */
module Isa {
  import opened Wrappers

  datatype Mnemonic =
    | ADC | AND | ASL | BCC | BCS | BEQ | BIT | BMI | BNE | BPL | BRK | BVC | BVS | CLC
    | CLD | CLI | CLV | CMP | CPX | CPY | DEC | DEX | DEY | EOR | INC | INX | INY | JMP
    | JSR | LDA | LDX | LDY | LSR | NOP | ORA | PHA | PHP | PLA | PLP | ROL | ROR | RTI
    | RTS | SBC | SEC | SED | SEI | STA | STX | STY | TAX | TAY | TSX | TXA | TXS | TYA

  datatype Mode =
    | Implied | Accumulator | Immediate | ZeroPage | ZeroPageX | ZeroPageY
    | Absolute | AbsoluteX | AbsoluteY | Indirect | IndexedIndirectX | IndirectIndexedY | Relative

  datatype Op = Op(mnemonic: Mnemonic, mode: Mode)

  type byte = n: int | 0 <= n < 256

  /** Bytes an instruction occupies, opcode included. */
  function Length(mode: Mode): nat {
    match mode
    case Implied | Accumulator => 1
    case Absolute | AbsoluteX | AbsoluteY | Indirect => 3
    case _ => 2
  }

  /** Which modes go with which kind of mnemonic. */
  predicate Sensible(op: Op) {
    var m := op.mnemonic;
    && (op.mode == Relative <==> m == BCC || m == BCS || m == BEQ || m == BNE || m == BMI || m == BPL || m == BVC || m == BVS)
    && (op.mode == Accumulator ==> m == ASL || m == LSR || m == ROL || m == ROR)
    && (m == PHA || m == PHP || m == PLA || m == PLP || m == RTS || m == RTI || m == BRK || m == TXS ==> op.mode == Implied)
    && (m == JMP ==> op.mode == Absolute || op.mode == Indirect)
    && (m == JSR ==> op.mode == Absolute)
  }

  function Rows00(opcode: byte): (r: Option<Op>)
    ensures r.Some? ==> Sensible(r.value)
  {
    match opcode
    case 0x00 => Some(Op(BRK, Implied))
    case 0x01 => Some(Op(ORA, IndexedIndirectX))
    case 0x05 => Some(Op(ORA, ZeroPage))
    case 0x06 => Some(Op(ASL, ZeroPage))
    case 0x08 => Some(Op(PHP, Implied))
    case 0x09 => Some(Op(ORA, Immediate))
    case 0x0A => Some(Op(ASL, Accumulator))
    case 0x0D => Some(Op(ORA, Absolute))
    case 0x0E => Some(Op(ASL, Absolute))
    case 0x10 => Some(Op(BPL, Relative))
    case 0x11 => Some(Op(ORA, IndirectIndexedY))
    case 0x15 => Some(Op(ORA, ZeroPageX))
    case 0x16 => Some(Op(ASL, ZeroPageX))
    case 0x18 => Some(Op(CLC, Implied))
    case 0x19 => Some(Op(ORA, AbsoluteY))
    case 0x1D => Some(Op(ORA, AbsoluteX))
    case 0x1E => Some(Op(ASL, AbsoluteX))
    case _ => None
  }

  function Rows20(opcode: byte): (r: Option<Op>)
    ensures r.Some? ==> Sensible(r.value)
  {
    match opcode
    case 0x20 => Some(Op(JSR, Absolute))
    case 0x21 => Some(Op(AND, IndexedIndirectX))
    case 0x24 => Some(Op(BIT, ZeroPage))
    case 0x25 => Some(Op(AND, ZeroPage))
    case 0x26 => Some(Op(ROL, ZeroPage))
    case 0x28 => Some(Op(PLP, Implied))
    case 0x29 => Some(Op(AND, Immediate))
    case 0x2A => Some(Op(ROL, Accumulator))
    case 0x2C => Some(Op(BIT, Absolute))
    case 0x2D => Some(Op(AND, Absolute))
    case 0x2E => Some(Op(ROL, Absolute))
    case 0x30 => Some(Op(BMI, Relative))
    case 0x31 => Some(Op(AND, IndirectIndexedY))
    case 0x35 => Some(Op(AND, ZeroPageX))
    case 0x36 => Some(Op(ROL, ZeroPageX))
    case 0x38 => Some(Op(SEC, Implied))
    case 0x39 => Some(Op(AND, AbsoluteY))
    case 0x3D => Some(Op(AND, AbsoluteX))
    case 0x3E => Some(Op(ROL, AbsoluteX))
    case _ => None
  }

  function Rows40(opcode: byte): (r: Option<Op>)
    ensures r.Some? ==> Sensible(r.value)
  {
    match opcode
    case 0x40 => Some(Op(RTI, Implied))
    case 0x41 => Some(Op(EOR, IndexedIndirectX))
    case 0x45 => Some(Op(EOR, ZeroPage))
    case 0x46 => Some(Op(LSR, ZeroPage))
    case 0x48 => Some(Op(PHA, Implied))
    case 0x49 => Some(Op(EOR, Immediate))
    case 0x4A => Some(Op(LSR, Accumulator))
    case 0x4C => Some(Op(JMP, Absolute))
    case 0x4D => Some(Op(EOR, Absolute))
    case 0x4E => Some(Op(LSR, Absolute))
    case 0x50 => Some(Op(BVC, Relative))
    case 0x51 => Some(Op(EOR, IndirectIndexedY))
    case 0x55 => Some(Op(EOR, ZeroPageX))
    case 0x56 => Some(Op(LSR, ZeroPageX))
    case 0x58 => Some(Op(CLI, Implied))
    case 0x59 => Some(Op(EOR, AbsoluteY))
    case 0x5D => Some(Op(EOR, AbsoluteX))
    case 0x5E => Some(Op(LSR, AbsoluteX))
    case _ => None
  }

  function Rows60(opcode: byte): (r: Option<Op>)
    ensures r.Some? ==> Sensible(r.value)
  {
    match opcode
    case 0x60 => Some(Op(RTS, Implied))
    case 0x61 => Some(Op(ADC, IndexedIndirectX))
    case 0x65 => Some(Op(ADC, ZeroPage))
    case 0x66 => Some(Op(ROR, ZeroPage))
    case 0x68 => Some(Op(PLA, Implied))
    case 0x69 => Some(Op(ADC, Immediate))
    case 0x6A => Some(Op(ROR, Accumulator))
    case 0x6C => Some(Op(JMP, Indirect))
    case 0x6D => Some(Op(ADC, Absolute))
    case 0x6E => Some(Op(ROR, Absolute))
    case 0x70 => Some(Op(BVS, Relative))
    case 0x71 => Some(Op(ADC, IndirectIndexedY))
    case 0x75 => Some(Op(ADC, ZeroPageX))
    case 0x76 => Some(Op(ROR, ZeroPageX))
    case 0x78 => Some(Op(SEI, Implied))
    case 0x79 => Some(Op(ADC, AbsoluteY))
    case 0x7D => Some(Op(ADC, AbsoluteX))
    case 0x7E => Some(Op(ROR, AbsoluteX))
    case _ => None
  }

  function Rows80(opcode: byte): (r: Option<Op>)
    ensures r.Some? ==> Sensible(r.value)
  {
    match opcode
    case 0x81 => Some(Op(STA, IndexedIndirectX))
    case 0x84 => Some(Op(STY, ZeroPage))
    case 0x85 => Some(Op(STA, ZeroPage))
    case 0x86 => Some(Op(STX, ZeroPage))
    case 0x88 => Some(Op(DEY, Implied))
    case 0x8A => Some(Op(TXA, Implied))
    case 0x8C => Some(Op(STY, Absolute))
    case 0x8D => Some(Op(STA, Absolute))
    case 0x8E => Some(Op(STX, Absolute))
    case 0x90 => Some(Op(BCC, Relative))
    case 0x91 => Some(Op(STA, IndirectIndexedY))
    case 0x94 => Some(Op(STY, ZeroPageX))
    case 0x95 => Some(Op(STA, ZeroPageX))
    case 0x96 => Some(Op(STX, ZeroPageY))
    case 0x98 => Some(Op(TYA, Implied))
    case 0x99 => Some(Op(STA, AbsoluteY))
    case 0x9A => Some(Op(TXS, Implied))
    case 0x9D => Some(Op(STA, AbsoluteX))
    case _ => None
  }

  function RowsA0(opcode: byte): (r: Option<Op>)
    ensures r.Some? ==> Sensible(r.value)
  {
    match opcode
    case 0xA0 => Some(Op(LDY, Immediate))
    case 0xA1 => Some(Op(LDA, IndexedIndirectX))
    case 0xA2 => Some(Op(LDX, Immediate))
    case 0xA4 => Some(Op(LDY, ZeroPage))
    case 0xA5 => Some(Op(LDA, ZeroPage))
    case 0xA6 => Some(Op(LDX, ZeroPage))
    case 0xA8 => Some(Op(TAY, Implied))
    case 0xA9 => Some(Op(LDA, Immediate))
    case 0xAA => Some(Op(TAX, Implied))
    case 0xAC => Some(Op(LDY, Absolute))
    case 0xAD => Some(Op(LDA, Absolute))
    case 0xAE => Some(Op(LDX, Absolute))
    case 0xB0 => Some(Op(BCS, Relative))
    case 0xB1 => Some(Op(LDA, IndirectIndexedY))
    case 0xB4 => Some(Op(LDY, ZeroPageX))
    case 0xB5 => Some(Op(LDA, ZeroPageX))
    case 0xB6 => Some(Op(LDX, ZeroPageY))
    case 0xB8 => Some(Op(CLV, Implied))
    case 0xB9 => Some(Op(LDA, AbsoluteY))
    case 0xBA => Some(Op(TSX, Implied))
    case 0xBC => Some(Op(LDY, AbsoluteX))
    case 0xBD => Some(Op(LDA, AbsoluteX))
    case 0xBE => Some(Op(LDX, AbsoluteY))
    case _ => None
  }

  function RowsC0(opcode: byte): (r: Option<Op>)
    ensures r.Some? ==> Sensible(r.value)
  {
    match opcode
    case 0xC0 => Some(Op(CPY, Immediate))
    case 0xC1 => Some(Op(CMP, IndexedIndirectX))
    case 0xC4 => Some(Op(CPY, ZeroPage))
    case 0xC5 => Some(Op(CMP, ZeroPage))
    case 0xC6 => Some(Op(DEC, ZeroPage))
    case 0xC8 => Some(Op(INY, Implied))
    case 0xC9 => Some(Op(CMP, Immediate))
    case 0xCA => Some(Op(DEX, Implied))
    case 0xCC => Some(Op(CPY, Absolute))
    case 0xCD => Some(Op(CMP, Absolute))
    case 0xCE => Some(Op(DEC, Absolute))
    case 0xD0 => Some(Op(BNE, Relative))
    case 0xD1 => Some(Op(CMP, IndirectIndexedY))
    case 0xD5 => Some(Op(CMP, ZeroPageX))
    case 0xD6 => Some(Op(DEC, ZeroPageX))
    case 0xD8 => Some(Op(CLD, Implied))
    case 0xD9 => Some(Op(CMP, AbsoluteY))
    case 0xDD => Some(Op(CMP, AbsoluteX))
    case 0xDE => Some(Op(DEC, AbsoluteX))
    case _ => None
  }

  function RowsE0(opcode: byte): (r: Option<Op>)
    ensures r.Some? ==> Sensible(r.value)
  {
    match opcode
    case 0xE0 => Some(Op(CPX, Immediate))
    case 0xE1 => Some(Op(SBC, IndexedIndirectX))
    case 0xE4 => Some(Op(CPX, ZeroPage))
    case 0xE5 => Some(Op(SBC, ZeroPage))
    case 0xE6 => Some(Op(INC, ZeroPage))
    case 0xE8 => Some(Op(INX, Implied))
    case 0xE9 => Some(Op(SBC, Immediate))
    case 0xEA => Some(Op(NOP, Implied))
    case 0xEC => Some(Op(CPX, Absolute))
    case 0xED => Some(Op(SBC, Absolute))
    case 0xEE => Some(Op(INC, Absolute))
    case 0xF0 => Some(Op(BEQ, Relative))
    case 0xF1 => Some(Op(SBC, IndirectIndexedY))
    case 0xF5 => Some(Op(SBC, ZeroPageX))
    case 0xF6 => Some(Op(INC, ZeroPageX))
    case 0xF8 => Some(Op(SED, Implied))
    case 0xF9 => Some(Op(SBC, AbsoluteY))
    case 0xFD => Some(Op(SBC, AbsoluteX))
    case 0xFE => Some(Op(INC, AbsoluteX))
    case _ => None
  }

  function Decode(opcode: byte): (r: Option<Op>)
    ensures r.Some? ==> Sensible(r.value)
  {
    if opcode < 0x20 then Rows00(opcode)
    else if opcode < 0x40 then Rows20(opcode)
    else if opcode < 0x60 then Rows40(opcode)
    else if opcode < 0x80 then Rows60(opcode)
    else if opcode < 0xA0 then Rows80(opcode)
    else if opcode < 0xC0 then RowsA0(opcode)
    else if opcode < 0xE0 then RowsC0(opcode)
    else RowsE0(opcode)
  }

  /** The lowest opcode at or above `from` that `decode` maps to `op`. */
  function OpcodeFrom(decode: byte -> Option<Op>, op: Op, from: nat): (r: Option<byte>)
    requires from <= 256
    ensures r.Some? ==> decode(r.value) == Some(op)
    ensures r.None? ==> forall o: byte :: from <= o ==> decode(o) != Some(op)
    decreases 256 - from
  {
    if from == 256 then None
    else if decode(from) == Some(op) then Some(from)
    else OpcodeFrom(decode, op, from + 1)
  }

  function OpcodeFor(op: Op): (r: Option<byte>) {
    OpcodeFrom(Decode, op, 0)
  }

  lemma OpcodeRoundTrip(op: Op)
    ensures OpcodeFor(op).Some? ==> Decode(OpcodeFor(op).value) == Some(op)
    ensures OpcodeFor(op).None? ==> forall o: byte :: Decode(o) != Some(op)
  {
    hide Decode;
  }
}
