/** The opcode table against the layout of the opcodes: three fields of bits for family, operation and addressing mode. */
module IsaPattern {
  import opened Wrappers
  import opened Isa

  function Chosen(mnemonics: seq<Option<Mnemonic>>, modes: seq<Option<Mode>>, aaa: nat, bbb: nat): Option<Op>
    requires |mnemonics| == |modes| == 8 && aaa < 8 && bbb < 8
  {
    if mnemonics[aaa].None? || modes[bbb].None? then None else Some(Op(mnemonics[aaa].value, modes[bbb].value))
  }

  /** Accumulator operations. Only the store lacks an immediate form. */
  function Arithmetic(aaa: nat, bbb: nat): Option<Op>
    requires aaa < 8 && bbb < 8
  {
    if aaa == 4 && bbb == 2 then None
    else
      Chosen([Some(ORA), Some(AND), Some(EOR), Some(ADC), Some(STA), Some(LDA), Some(CMP), Some(SBC)],
             [Some(IndexedIndirectX), Some(ZeroPage), Some(Immediate), Some(Absolute),
              Some(IndirectIndexedY), Some(ZeroPageX), Some(AbsoluteY), Some(AbsoluteX)], aaa, bbb)
  }

  /** Shifts and counts; X is stored and loaded here too, and then Y is the index. */
  function Modifying(aaa: nat, bbb: nat): Option<Op>
    requires aaa < 8 && bbb < 8
  {
    var m := [ASL, ROL, LSR, ROR, STX, LDX, DEC, INC][aaa];
    var ofX := m == STX || m == LDX;
    match bbb
    case 0 => if m == LDX then Some(Op(LDX, Immediate)) else None
    case 1 => Some(Op(m, ZeroPage))
    case 2 =>
      if aaa < 4 then Some(Op(m, Accumulator)) else Some(Op([TXA, TAX, DEX, NOP][aaa - 4], Implied))
    case 3 => Some(Op(m, Absolute))
    case 4 => None
    case 5 => Some(Op(m, if ofX then ZeroPageY else ZeroPageX))
    case 6 => if m == STX then Some(Op(TXS, Implied)) else if m == LDX then Some(Op(TSX, Implied)) else None
    case _ => if m == STX then None else Some(Op(m, if ofX then AbsoluteY else AbsoluteX))
  }

  /** Control, flags and stack, and the operations of Y. */
  function Controlling(aaa: nat, bbb: nat): Option<Op>
    requires aaa < 8 && bbb < 8
  {
    match bbb
    case 0 =>
      [Some(Op(BRK, Implied)), Some(Op(JSR, Absolute)), Some(Op(RTI, Implied)), Some(Op(RTS, Implied)),
       None, Some(Op(LDY, Immediate)), Some(Op(CPY, Immediate)), Some(Op(CPX, Immediate))][aaa]
    case 1 =>
      var m := [None, Some(BIT), None, None, Some(STY), Some(LDY), Some(CPY), Some(CPX)][aaa];
      if m.None? then None else Some(Op(m.value, ZeroPage))
    case 2 => Some(Op([PHP, PLP, PHA, PLA, DEY, TAY, INY, INX][aaa], Implied))
    case 3 =>
      var m := [None, Some(BIT), Some(JMP), Some(JMP), Some(STY), Some(LDY), Some(CPY), Some(CPX)][aaa];
      if m.None? then None else Some(Op(m.value, if aaa == 3 then Indirect else Absolute))
    case 4 => Some(Op([BPL, BMI, BVC, BVS, BCC, BCS, BNE, BEQ][aaa], Relative))
    case 5 => if aaa == 4 then Some(Op(STY, ZeroPageX)) else if aaa == 5 then Some(Op(LDY, ZeroPageX)) else None
    case 6 => Some(Op([CLC, SEC, CLI, SEI, TYA, CLV, CLD, SED][aaa], Implied))
    case _ => if aaa == 5 then Some(Op(LDY, AbsoluteX)) else None
  }

  function Laid(opcode: byte): Option<Op> {
    var aaa, bbb, cc := opcode / 32, opcode / 4 % 8, opcode % 4;
    match cc
    case 0 => Controlling(aaa, bbb)
    case 1 => Arithmetic(aaa, bbb)
    case 2 => Modifying(aaa, bbb)
    case _ => None
  }

  lemma Row00(opcode: byte)
    requires opcode < 0x20
    ensures Rows00(opcode) == Laid(opcode)
  {
    hide Sensible;
  }

  lemma Row20(opcode: byte)
    requires 0x20 <= opcode < 0x40
    ensures Rows20(opcode) == Laid(opcode)
  {
    hide Sensible;
  }

  lemma Row40(opcode: byte)
    requires 0x40 <= opcode < 0x60
    ensures Rows40(opcode) == Laid(opcode)
  {
    hide Sensible;
  }

  lemma Row60(opcode: byte)
    requires 0x60 <= opcode < 0x80
    ensures Rows60(opcode) == Laid(opcode)
  {
    hide Sensible;
  }

  lemma Row80(opcode: byte)
    requires 0x80 <= opcode < 0xA0
    ensures Rows80(opcode) == Laid(opcode)
  {
    hide Sensible;
  }

  lemma RowA0(opcode: byte)
    requires 0xA0 <= opcode < 0xC0
    ensures RowsA0(opcode) == Laid(opcode)
  {
    hide Sensible;
  }

  lemma RowC0(opcode: byte)
    requires 0xC0 <= opcode < 0xE0
    ensures RowsC0(opcode) == Laid(opcode)
  {
    hide Sensible;
  }

  lemma RowE0(opcode: byte)
    requires 0xE0 <= opcode
    ensures RowsE0(opcode) == Laid(opcode)
  {
    hide Sensible;
  }

  /** Every opcode, documented or not, means what its place in the layout says. */
  lemma DecodeIsLaid(opcode: byte)
    ensures Decode(opcode) == Laid(opcode)
  {
    hide Laid, Sensible, Rows00, Rows20, Rows40, Rows60, Rows80, RowsA0, RowsC0, RowsE0;
    if opcode < 0x20 { Row00(opcode); }
    else if opcode < 0x40 { Row20(opcode); }
    else if opcode < 0x60 { Row40(opcode); }
    else if opcode < 0x80 { Row60(opcode); }
    else if opcode < 0xA0 { Row80(opcode); }
    else if opcode < 0xC0 { RowA0(opcode); }
    else if opcode < 0xE0 { RowC0(opcode); }
    else { RowE0(opcode); }
  }
}
