/** The table of what instructions read, against the machine: a register is listed where it makes a difference. */
module AsmTable {
  import opened Wrappers
  import opened Bits
  import opened Isa
  import opened Cpu
  import opened CpuChange
  import opened AsmBlind
  import opened AsmFlags
  import Flow = AsmGraph
  import Pattern = IsaPattern

  // ----- making a difference -----

  /** Something besides the register itself comes out differently. */
  predicate Apart(e: State, f: State, r: Flow.Register) {
    || (!r.RA? && e.a != f.a) || (!r.RX? && e.x != f.x) || (!r.RY? && e.y != f.y) || (!r.RSp? && e.sp != f.sp)
    || e.c != f.c || e.z != f.z || e.n != f.n || e.v != f.v || e.d != f.d || e.i != f.i || e.mem != f.mem
  }

  function Put(s: State, r: Flow.Register, v: byte): State
    requires !r.RFlags?
  {
    match r
    case RA => s.(a := v)
    case RX => s.(x := v)
    case RY => s.(y := v)
    case RSp => s.(sp := v)
  }

  ghost predicate DiffersAt(op: Op, w: word, s: State, r: Flow.Register, v: byte)
    requires !r.RFlags?
  {
    Apart(Exec(op, w, Put(s, r, v)), Exec(op, w, s), r)
  }

  /** Changing the register before the instruction can change something else after it. */
  ghost predicate Matters(op: Op, r: Flow.Register)
    requires !r.RFlags?
  {
    exists w, s, v :: DiffersAt(op, w, s, r, v)
  }

  lemma BlindIsAlike(op: Op, w: word, s: State, r: Flow.Register, v: byte)
    requires Tracked(r) && Sensible(op) && Honest(op, r) && !Flow.Has(Flow.Reads(op), r)
    ensures !DiffersAt(op, w, s, r, v)
  {
    hide Exec, Flow.Reads, Flow.Writes, Sensible;
    InstructionBlind(op, w, s, r, v);
  }

  // ----- states that tell -----

  function Filled(v: byte): Memory { seq(0x10000, _ => v) }

  function Bare(c: bool, mem: Memory): State { State(0, 0, 0, 255, c, false, false, false, false, false, mem) }

  lemma FilledFetch(op: Op, w: word, s: State)
    requires s.mem == Filled(w % 256) && w < 256 && op.mode != Accumulator
    ensures Fetch(op.mode, w, s) == w
  {
    hide Address;
  }

  lemma SmallLogic()
    ensures Logic(BitAnd, 0, 1) == 0 && Logic(BitAnd, 1, 1) == 1
    ensures Logic(BitOr, 0, 0) == 0 && Logic(BitOr, 1, 0) == 1
    ensures Logic(BitXor, 0, 0) == 0 && Logic(BitXor, 1, 0) == 1
    ensures Logic(BitOr, 0, 1) == 1 && Logic(BitXor, 0, 1) == 1 && Logic(BitAnd, 1, 0) == 0
  {
    Pow2Values();
    LogicOfOne();
    assert Pow2(0) == 1 && Pow2(1) == 2 && Pow2(2) == 4 && Pow2(3) == 8 && Pow2(4) == 16 && Pow2(5) == 32
      && Pow2(6) == 64;
    SmallBits(BitOr);
    SmallBits(BitXor);
    SmallBits(BitAnd);
  }

  lemma SmallBits(op: BitOp)
    ensures Pow2(8) == 256
    ensures Bitwise(op, 0, 0, 8) == 0 && Bitwise(op, 1, 0, 8) == Bitwise(op, 0, 1, 8) == if op.BitAnd? then 0 else 1
  {
    Pow2Values();
    LowBits(op, 8);
  }

  lemma {:induction false} LowBits(op: BitOp, width: nat)
    requires width > 0
    ensures 1 < Pow2(width) && Bitwise(op, 0, 0, width) == 0
    ensures Bitwise(op, 1, 0, width) == Bitwise(op, 0, 1, width) == if op.BitAnd? then 0 else 1
  {
    if width > 1 { LowBits(op, width - 1); } else { assert Pow2(0) == 1 && Bitwise(op, 0, 0, 0) == 0; }
  }

  /** Shown through the effects: what differs there differs after the instruction. */
  lemma DiffersBy(op: Op, w: word, s: State, r: Flow.Register, v: byte)
    requires !r.RFlags?
      && Apart(Applied(Put(s, r, v), EffectOf(op, w, Put(s, r, v))), Applied(s, EffectOf(op, w, s)), r)
    ensures Matters(op, r)
  {
    hide Exec, EffectOf, Applied, Apart;
    ExecApplies(op, w, s);
    ExecApplies(op, w, Put(s, r, v));
    assert DiffersAt(op, w, s, r, v);
  }

  lemma NotAccumulator(op: Op)
    requires Sensible(op) && !IsRotate(op.mnemonic)
    ensures op.mode != Accumulator
  {
  }

  // ----- A -----

  lemma LogicalNeedsA(op: Op)
    requires Sensible(op) && IsLogical(op.mnemonic)
    ensures Matters(op, Flow.RA)
  {
    hide Logic, Address, Fetch, Sensible;
    LogicalMembers(op.mnemonic);
    NotAccumulator(op);
    var w: byte := if op.mnemonic.AND? || op.mnemonic.BIT? then 1 else 0;
    var s := Bare(false, Filled(w));
    SmallLogic();
    FilledFetch(op, w, s);
    FilledFetch(op, w, Put(s, Flow.RA, 1));
    DiffersBy(op, w, s, Flow.RA, 1);
  }

  /** Z is set differently. */
  lemma DiffersByZero(op: Op, w: word, s: State, r: Flow.Register, v: byte)
    requires !r.RFlags? && EffectOf(op, w, s).z.Some? && EffectOf(op, w, Put(s, r, v)).z.Some?
    requires EffectOf(op, w, s).z != EffectOf(op, w, Put(s, r, v)).z
    ensures Matters(op, r)
  {
    hide EffectOf, Stored, Put;
    DiffersBy(op, w, s, r, v);
  }

  /** Memory is set differently at a cell. */
  lemma DiffersByStore(op: Op, w: word, s: State, r: Flow.Register, v: byte, at: word)
    requires !r.RFlags?
    requires Stored(s.mem, EffectOf(op, w, s).store)[at] != Stored(Put(s, r, v).mem, EffectOf(op, w, Put(s, r, v)).store)[at]
    ensures Matters(op, r)
  {
    hide EffectOf, Stored, Put;
    DiffersBy(op, w, s, r, v);
  }

  lemma OperandGroups(m: Mnemonic)
    ensures m.ADC? || m.SBC? ==> IsArithmetic(m)
    ensures m.CMP? || m.CPX? || m.CPY? ==> IsCompare(m)
    ensures m.STA? || m.STX? || m.STY? ==> IsMove(m)
    ensures m.ASL? || m.ROL? || m.LSR? || m.ROR? ==> IsRotate(m)
  {
  }

  lemma StackGroups(m: Mnemonic)
    ensures m.PHA? || m.PHP? || m.PLA? || m.PLP? ==> IsStack(m)
    ensures m.INX? || m.INY? || m.DEX? || m.DEY? ==> IsCount(m)
  {
  }

  lemma TransferGroups(m: Mnemonic)
    ensures m.TAX? || m.TAY? || m.TSX? || m.TXA? || m.TYA? || m.TXS? ==> IsTransfer(m)
  {
  }

  lemma Groups(m: Mnemonic)
    ensures m.ADC? || m.SBC? ==> IsArithmetic(m)
    ensures m.CMP? || m.CPX? || m.CPY? ==> IsCompare(m)
    ensures m.STA? || m.STX? || m.STY? ==> IsMove(m)
    ensures m.ASL? || m.ROL? || m.LSR? || m.ROR? ==> IsRotate(m)
    ensures m.PHA? || m.PHP? || m.PLA? || m.PLP? ==> IsStack(m)
    ensures m.TAX? || m.TAY? || m.TSX? || m.TXA? || m.TYA? || m.TXS? ==> IsTransfer(m)
    ensures m.INX? || m.INY? || m.DEX? || m.DEY? ==> IsCount(m)
  {
    hide IsArithmetic, IsCompare, IsMove, IsRotate, IsStack, IsTransfer, IsCount;
    OperandGroups(m);
    StackGroups(m);
    TransferGroups(m);
  }

  lemma SumEffectIs(op: Op, w: word, s: State)
    ensures op.mnemonic.ADC? ==> EffectOf(op, w, s) == Sum(s.a, Fetch(op.mode, w, s), s.c)
    ensures op.mnemonic.SBC? ==> EffectOf(op, w, s) == Difference(s.a, Fetch(op.mode, w, s), s.c)
  {
    hide Effect, IsMove, IsTransfer, IsLogical, IsCompare, IsArithmetic, IsCount, IsRotate, IsAdjust, IsStack,
         IsFlag, GroupOf,
         Fetch, Address, Sum, Difference;
    Groups(op.mnemonic);
    EffectByGroup(op, Address(op.mode, w, s), Fetch(op.mode, w, s), s);
  }

  lemma CompareEffectIs(op: Op, w: word, s: State)
    ensures op.mnemonic.CMP? ==> EffectOf(op, w, s) == Compared(s.a, Fetch(op.mode, w, s))
    ensures op.mnemonic.CPX? ==> EffectOf(op, w, s) == Compared(s.x, Fetch(op.mode, w, s))
    ensures op.mnemonic.CPY? ==> EffectOf(op, w, s) == Compared(s.y, Fetch(op.mode, w, s))
  {
    hide Effect, IsMove, IsTransfer, IsLogical, IsCompare, IsArithmetic, IsCount, IsRotate, IsAdjust, IsStack,
         IsFlag, GroupOf,
         Fetch, Address, Compared;
    Groups(op.mnemonic);
    EffectByGroup(op, Address(op.mode, w, s), Fetch(op.mode, w, s), s);
  }

  lemma StoreEffectIs(op: Op, w: word, s: State)
    ensures op.mnemonic.STA? ==> EffectOf(op, w, s) == ToMemory(Address(op.mode, w, s), s.a)
    ensures op.mnemonic.STX? ==> EffectOf(op, w, s) == ToMemory(Address(op.mode, w, s), s.x)
    ensures op.mnemonic.STY? ==> EffectOf(op, w, s) == ToMemory(Address(op.mode, w, s), s.y)
    ensures op.mnemonic.PHA? ==> EffectOf(op, w, s) == Pushed(s.sp, s.a)
    ensures op.mnemonic.PHP? ==> EffectOf(op, w, s) == Pushed(s.sp, PackFlags(s))
  {
    hide Effect, IsMove, IsTransfer, IsLogical, IsCompare, IsArithmetic, IsCount, IsRotate, IsAdjust, IsStack,
         IsFlag, GroupOf,
         Fetch, Address, ToMemory, Pushed, PackFlags, ToA, Flags, Pulled, Top;
    Groups(op.mnemonic);
    EffectByGroup(op, Address(op.mode, w, s), Fetch(op.mode, w, s), s);
  }

  lemma SumsDiffer(op: Op, s: State, t: State)
    requires (op.mnemonic.ADC? && t.a == 255) || (op.mnemonic.SBC? && t.a == 1)
    requires s.a == 0 && s.c && t.c && Fetch(op.mode, 0, s) == 0 && Fetch(op.mode, 0, t) == 0
    ensures EffectOf(op, 0, s).z.Some? && EffectOf(op, 0, t).z.Some? && EffectOf(op, 0, s).z != EffectOf(op, 0, t).z
  {
    hide Fetch, Effect, EffectOf, Sum, Difference, Sets;
    SumsTell();
    SumEffectIs(op, 0, s);
    SumEffectIs(op, 0, t);
    if op.mnemonic.ADC? {
      assert EffectOf(op, 0, s) == Sum(0, 0, true) && EffectOf(op, 0, t) == Sum(255, 0, true);
    } else {
      assert EffectOf(op, 0, s) == Difference(0, 0, true) && EffectOf(op, 0, t) == Difference(1, 0, true);
    }
  }

  lemma SumNeedsA(op: Op)
    requires Sensible(op) && (op.mnemonic.ADC? || op.mnemonic.SBC?)
    ensures Matters(op, Flow.RA)
  {
    hide Address, Fetch, Sensible, Effect, EffectOf, Matters;
    NotAccumulator(op);
    var s := Bare(true, Filled(0));
    var v: byte := if op.mnemonic.ADC? then 255 else 1;
    FilledFetch(op, 0, s);
    FilledFetch(op, 0, Put(s, Flow.RA, v));
    SumsDiffer(op, s, Put(s, Flow.RA, v));
    DiffersByZero(op, 0, s, Flow.RA, v);
  }

  lemma CompareNeeds(op: Op, r: Flow.Register)
    requires Sensible(op) && ((op.mnemonic.CMP? && r.RA?) || (op.mnemonic.CPX? && r.RX?) || (op.mnemonic.CPY? && r.RY?))
    ensures Matters(op, r)
  {
    hide Address, Fetch, Sensible, Effect, EffectOf;
    NotAccumulator(op);
    var s := Bare(true, Filled(0));
    FilledFetch(op, 0, s);
    FilledFetch(op, 0, Put(s, r, 1));
    CompareEffectIs(op, 0, s);
    CompareEffectIs(op, 0, Put(s, r, 1));
    DiffersByZero(op, 0, s, r, 1);
  }

  lemma StoreNeeds(op: Op, r: Flow.Register)
    requires Sensible(op) && ((op.mnemonic.STA? && r.RA?) || (op.mnemonic.STX? && r.RX?) || (op.mnemonic.STY? && r.RY?))
    requires Address(op.mode, 0, Put(Bare(true, Filled(0)), r, 1)) == Address(op.mode, 0, Bare(true, Filled(0)))
    ensures Matters(op, r)
  {
    hide Address, Sensible, Effect, EffectOf;
    var s := Bare(true, Filled(0));
    StoreEffectIs(op, 0, s);
    StoreEffectIs(op, 0, Put(s, r, 1));
    DiffersByStore(op, 0, s, r, 1, Address(op.mode, 0, s));
  }

  lemma PushNeedsA(op: Op)
    requires op.mnemonic.PHA?
    ensures Matters(op, Flow.RA)
  {
    hide Effect, EffectOf;
    var s := Bare(true, Filled(0));
    StoreEffectIs(op, 0, s);
    StoreEffectIs(op, 0, Put(s, Flow.RA, 1));
    DiffersByStore(op, 0, s, Flow.RA, 1, 0x1FF);
  }

  lemma DifferenceZero(a: byte, value: byte)
    ensures Difference(a, value, true).z == Some(a == value)
  {
    hide Sets;
  }

  lemma SumsTell()
    ensures Sum(0, 0, true).z == Some(false) && Sum(255, 0, true).z == Some(true)
    ensures Difference(0, 0, true).z == Some(true) && Difference(1, 0, true).z == Some(false)
  {
    hide Difference;
    DifferenceZero(0, 0);
    DifferenceZero(1, 0);
  }

  lemma TransferEffectIs(op: Op, w: word, s: State)
    ensures op.mnemonic.TAX? ==> EffectOf(op, w, s) == ToX(s.a)
    ensures op.mnemonic.TAY? ==> EffectOf(op, w, s) == ToY(s.a)
    ensures op.mnemonic.TSX? ==> EffectOf(op, w, s) == ToX(s.sp)
    ensures op.mnemonic.TXA? ==> EffectOf(op, w, s) == ToA(s.x)
    ensures op.mnemonic.TYA? ==> EffectOf(op, w, s) == ToA(s.y)
    ensures op.mnemonic.TXS? ==> EffectOf(op, w, s) == KEEP.(sp := Some(s.x))
  {
    hide Effect, IsMove, IsTransfer, IsLogical, IsCompare, IsArithmetic, IsCount, IsRotate, IsAdjust, IsStack,
         IsFlag, GroupOf,
         Fetch, Address, ToA, ToX, ToY;
    Groups(op.mnemonic);
    EffectByGroup(op, Address(op.mode, w, s), Fetch(op.mode, w, s), s);
  }

  /** A transfer matters to its target, and the flags tell. */
  lemma TransferNeeds(op: Op, r: Flow.Register)
    requires match r
      case RA => op.mnemonic.TAX? || op.mnemonic.TAY?
      case RX => op.mnemonic.TXA?
      case RY => op.mnemonic.TYA?
      case RSp => op.mnemonic.TSX?
      case RFlags => false
    ensures Matters(op, r)
  {
    hide Effect, EffectOf;
    var s := Put(Bare(true, Filled(0)), r, 0);
    TransferEffectIs(op, 0, s);
    TransferEffectIs(op, 0, Put(s, r, 1));
    DiffersByZero(op, 0, s, r, 1);
  }

  lemma StackTransferNeeds(op: Op)
    requires op.mnemonic.TXS?
    ensures Matters(op, Flow.RX)
  {
    hide Effect, EffectOf;
    var s := Bare(true, Filled(0));
    TransferEffectIs(op, 0, s);
    TransferEffectIs(op, 0, Put(s, Flow.RX, 1));
    DiffersBy(op, 0, s, Flow.RX, 1);
  }

  lemma AddressOfA(mode: Mode, w: word, s: State, v: byte)
    ensures Address(mode, w, Put(s, Flow.RA, v)) == Address(mode, w, s)
  {
  }

  lemma RotateEffectIs(op: Op, w: word, s: State)
    requires IsRotate(op.mnemonic) && op.mode == Accumulator
    ensures EffectOf(op, w, s).c == Some(CarryOut(op.mnemonic, s.a))
  {
    hide Effect, IsMove, IsTransfer, IsLogical, IsCompare, IsArithmetic, IsCount, IsRotate, IsAdjust, IsStack,
         IsFlag, GroupOf,
         Address, CarryOut, Shifted;
    EffectByGroup(op, Address(op.mode, w, s), Fetch(op.mode, w, s), s);
  }

  /** Carry is set differently. */
  lemma DiffersByCarry(op: Op, w: word, s: State, r: Flow.Register, v: byte)
    requires !r.RFlags? && EffectOf(op, w, s).c.Some? && EffectOf(op, w, Put(s, r, v)).c.Some?
    requires EffectOf(op, w, s).c != EffectOf(op, w, Put(s, r, v)).c
    ensures Matters(op, r)
  {
    hide EffectOf, Stored, Put;
    DiffersBy(op, w, s, r, v);
  }

  lemma RotateNeedsA(op: Op)
    requires IsRotate(op.mnemonic) && op.mode == Accumulator
    ensures Matters(op, Flow.RA)
  {
    hide EffectOf, GroupOf;
    var s := Bare(false, Filled(0));
    var v: byte := if op.mnemonic.ASL? || op.mnemonic.ROL? then 128 else 1;
    RotateEffectIs(op, 0, s);
    RotateEffectIs(op, 0, Put(s, Flow.RA, v));
    DiffersByCarry(op, 0, s, Flow.RA, v);
  }

  /** A is listed exactly where it matters, but for BIT, and for JSR, which runs other code. */
  lemma ReadsOfA(op: Op)
    requires Sensible(op) && !op.mnemonic.JSR?
    ensures Matters(op, Flow.RA) <==> Flow.Has(Flow.Reads(op), Flow.RA) || op.mnemonic.BIT?
  {
    hide Matters, Sensible;
    if Flow.Has(Flow.Reads(op), Flow.RA) || op.mnemonic.BIT? {
      GroupsOfA(op);
      hide GroupOf;
      if IsLogical(op.mnemonic) { LogicalNeedsA(op); }
      else if op.mnemonic.ADC? || op.mnemonic.SBC? { SumNeedsA(op); }
      else if op.mnemonic.CMP? { CompareNeeds(op, Flow.RA); }
      else if IsRotate(op.mnemonic) { RotateNeedsA(op); }
      else if op.mnemonic.STA? {
        AddressOfA(op.mode, 0, Bare(true, Filled(0)), 1);
        StoreNeeds(op, Flow.RA);
      }
      else if op.mnemonic.PHA? { PushNeedsA(op); }
      else { TransferNeeds(op, Flow.RA); }
    } else {
      NothingMatters(op, Flow.RA);
    }
  }

  lemma GroupsOfA(op: Op)
    requires !op.mnemonic.JSR? && (Flow.Has(Flow.Reads(op), Flow.RA) || op.mnemonic.BIT?)
    ensures IsLogical(op.mnemonic) || op.mnemonic.ADC? || op.mnemonic.SBC? || op.mnemonic.CMP?
      || (IsRotate(op.mnemonic) && op.mode == Accumulator)
      || op.mnemonic.STA? || op.mnemonic.TAX? || op.mnemonic.TAY? || op.mnemonic.PHA?
    ensures IsRotate(op.mnemonic) ==> op.mode == Accumulator
  {
  }

  lemma NothingMatters(op: Op, r: Flow.Register)
    requires Tracked(r) && Sensible(op) && Honest(op, r) && !Flow.Has(Flow.Reads(op), r)
    ensures !Matters(op, r)
  {
    hide Exec, Flow.Reads, Sensible, DiffersAt;
    forall w, s, v ensures !DiffersAt(op, w, s, r, v) { BlindIsAlike(op, w, s, r, v); }
  }

  // ----- X and Y as operands -----

  lemma CountEffectIs(op: Op, w: word, s: State)
    ensures op.mnemonic.INX? ==> EffectOf(op, w, s) == ToX(Wrap(s.x + 1))
    ensures op.mnemonic.INY? ==> EffectOf(op, w, s) == ToY(Wrap(s.y + 1))
    ensures op.mnemonic.DEX? ==> EffectOf(op, w, s) == ToX(Wrap(s.x + 255))
    ensures op.mnemonic.DEY? ==> EffectOf(op, w, s) == ToY(Wrap(s.y + 255))
  {
    hide Effect, IsMove, IsTransfer, IsLogical, IsCompare, IsArithmetic, IsCount, IsRotate, IsAdjust, IsStack,
         IsFlag, GroupOf,
         Fetch, Address, ToX, ToY, Wrap;
    Groups(op.mnemonic);
    EffectByGroup(op, Address(op.mode, w, s), Fetch(op.mode, w, s), s);
  }

  lemma CountNeeds(op: Op, r: Flow.Register)
    requires if r.RX? then op.mnemonic.INX? || op.mnemonic.DEX? else r.RY? && (op.mnemonic.INY? || op.mnemonic.DEY?)
    ensures Matters(op, r)
  {
    hide Effect, EffectOf;
    var s := Bare(true, Filled(0));
    var v: byte := if op.mnemonic.INX? || op.mnemonic.INY? then 255 else 1;
    CountEffectIs(op, 0, s);
    CountEffectIs(op, 0, Put(s, r, v));
    DiffersByZero(op, 0, s, r, v);
  }

  predicate IndexedBy(mode: Mode, r: Flow.Register) {
    || (r.RX? && (mode.ZeroPageX? || mode.AbsoluteX? || mode.IndexedIndirectX?))
    || (r.RY? && (mode.ZeroPageY? || mode.AbsoluteY? || mode.IndirectIndexedY?))
  }

  lemma AddressWithout(mode: Mode, r: Flow.Register)
    requires (r.RX? || r.RY?) && !IndexedBy(mode, r)
    ensures Address(mode, 0, Put(Bare(true, Filled(0)), r, 1)) == Address(mode, 0, Bare(true, Filled(0)))
  {
  }

  /** The instructions that use X or Y as an operand. */
  predicate TakesX(m: Mnemonic) { m.CPX? || m.INX? || m.DEX? || m.STX? || m.TXA? || m.TXS? }

  predicate TakesY(m: Mnemonic) { m.CPY? || m.INY? || m.DEY? || m.STY? || m.TYA? }

  lemma TakenMatters(op: Op, r: Flow.Register)
    requires Sensible(op) && (if r.RX? then TakesX(op.mnemonic) else r.RY? && TakesY(op.mnemonic))
    requires !IndexedBy(op.mode, r)
    ensures Matters(op, r)
  {
    hide Matters, Sensible, IndexedBy;
    var m := op.mnemonic;
    AddressWithout(op.mode, r);
    if m.CPX? || m.CPY? { CompareNeeds(op, r); }
    else if m.STX? || m.STY? { StoreNeeds(op, r); }
    else if m.TXS? { StackTransferNeeds(op); }
    else if m.TXA? || m.TYA? { TransferNeeds(op, r); }
    else { CountNeeds(op, r); }
  }

  // ----- X and Y as index -----

  /** Memory in which an index of one more finds 1 instead of 0. */
  function IndexMemory(mode: Mode): Memory {
    match mode
    case IndexedIndirectX => Filled(0)[0x10 := 0x40][0 := 1]
    case IndirectIndexedY => Filled(0)[0x10 := 0x40][0x41 := 1]
    case _ => Filled(0)[0x11 := 1]
  }

  function Other(mode: Mode): word {
    match mode
    case IndexedIndirectX => 0
    case IndirectIndexedY => 0x41
    case _ => 0x11
  }

  function Indexing(mode: Mode, a: byte, c: bool): State { Bare(c, IndexMemory(mode)).(a := a) }

  lemma IndexedAddresses(mode: Mode, r: Flow.Register, a: byte, c: bool)
    requires IndexedBy(mode, r)
    ensures var s := Indexing(mode, a, c);
      && Address(mode, 0x10, s) != Other(mode) && s.mem[Address(mode, 0x10, s)] == 0
      && Address(mode, 0x10, Put(s, r, 1)) == Other(mode) && s.mem[Other(mode)] == 1
      && s.a == a && s.x == s.y == 0 && s.c == c && Put(s, r, 1).mem == s.mem && Put(s, r, 1).a == a
      && Put(s, r, 1).c == c
      && (r.RY? ==> Put(s, r, 1).x == 0) && (r.RX? ==> Put(s, r, 1).y == 0)
  {
  }

  lemma IndexedFetch(mode: Mode, r: Flow.Register, a: byte, c: bool)
    requires IndexedBy(mode, r)
    ensures var s := Indexing(mode, a, c); Fetch(mode, 0x10, s) == 0 && Fetch(mode, 0x10, Put(s, r, 1)) == 1
  {
    hide Address, Indexing, Put;
    IndexedAddresses(mode, r, a, c);
  }

  predicate Loads(m: Mnemonic) { m.LDA? || m.LDX? || m.LDY? }

  predicate Reckons(m: Mnemonic) { m.AND? || m.ORA? || m.EOR? || m.ADC? || m.SBC? || m.CMP? }

  predicate Stores(m: Mnemonic) { m.STA? || m.STX? || m.STY? }

  predicate Modifies(m: Mnemonic) { m.ASL? || m.ROL? || m.LSR? || m.ROR? || m.INC? || m.DEC? }

  lemma LoadEffectIs(op: Op, w: word, s: State)
    requires Loads(op.mnemonic)
    ensures EffectOf(op, w, s).z == Some(Fetch(op.mode, w, s) == 0)
  {
    hide Effect, IsMove, IsTransfer, IsLogical, IsCompare, IsArithmetic, IsCount, IsRotate, IsAdjust, IsStack,
         IsFlag, GroupOf,
         Fetch, Address;
    StandsOut(op.mnemonic);
    assert IsMove(op.mnemonic) by { MoveIs(op.mnemonic); }
    EffectByGroup(op, Address(op.mode, w, s), Fetch(op.mode, w, s), s);
  }

  lemma MoveIs(m: Mnemonic)
    requires GroupOf(m) == Moves
    ensures IsMove(m)
  {
    hide GroupOf;
  }

  lemma LogicalGroups(m: Mnemonic)
    ensures m.AND? || m.ORA? || m.EOR? ==> IsLogical(m)
    ensures m.INC? || m.DEC? ==> IsAdjust(m)
  {
  }

  lemma LogicalEffectIs(op: Op, w: word, s: State)
    ensures op.mnemonic.AND? ==> EffectOf(op, w, s).z == Some(Logic(BitAnd, s.a, Fetch(op.mode, w, s)) == 0)
    ensures op.mnemonic.ORA? ==> EffectOf(op, w, s).z == Some(Logic(BitOr, s.a, Fetch(op.mode, w, s)) == 0)
    ensures op.mnemonic.EOR? ==> EffectOf(op, w, s).z == Some(Logic(BitXor, s.a, Fetch(op.mode, w, s)) == 0)
  {
    hide Effect, IsMove, IsTransfer, IsLogical, IsCompare, IsArithmetic, IsCount, IsRotate, IsAdjust, IsStack,
         IsFlag, GroupOf,
         Fetch, Address, Logic;
    LogicalGroups(op.mnemonic);
    EffectByGroup(op, Address(op.mode, w, s), Fetch(op.mode, w, s), s);
  }

  lemma ModifyEffectIs(op: Op, w: word, s: State)
    requires Modifies(op.mnemonic) && op.mode != Accumulator
    ensures var store := EffectOf(op, w, s).store;
      store.Some? && store.value.0 == Address(op.mode, w, s)
        && (Fetch(op.mode, w, s) == 1 && !s.c ==> store.value.1 != 1)
  {
    hide Effect, IsMove, IsTransfer, IsLogical, IsCompare, IsArithmetic, IsCount, IsRotate, IsAdjust, IsStack,
         IsFlag, GroupOf,
         Fetch, Address;
    Groups(op.mnemonic);
    LogicalGroups(op.mnemonic);
    EffectByGroup(op, Address(op.mode, w, s), Fetch(op.mode, w, s), s);
  }

  lemma IndexSeenByLoad(op: Op, r: Flow.Register)
    requires IndexedBy(op.mode, r) && Loads(op.mnemonic)
    ensures Matters(op, r)
  {
    hide EffectOf, Fetch, Matters, Indexing;
    var s := Indexing(op.mode, 0, false);
    IndexedFetch(op.mode, r, 0, false);
    LoadEffectIs(op, 0x10, s);
    LoadEffectIs(op, 0x10, Put(s, r, 1));
    DiffersByZero(op, 0x10, s, r, 1);
  }

  lemma LogicTells(op: Op, s: State, t: State)
    requires (op.mnemonic.AND? && s.a == t.a == 1) || ((op.mnemonic.ORA? || op.mnemonic.EOR?) && s.a == t.a == 0)
    requires Fetch(op.mode, 0x10, s) == 0 && Fetch(op.mode, 0x10, t) == 1
    ensures EffectOf(op, 0x10, s).z == Some(true) && EffectOf(op, 0x10, t).z == Some(false)
  {
    hide EffectOf, Fetch, Logic;
    SmallLogic();
    LogicalEffectIs(op, 0x10, s);
    LogicalEffectIs(op, 0x10, t);
  }

  lemma CompareTells(op: Op, s: State, t: State)
    requires op.mnemonic.CMP? && s.a == t.a == 0 && Fetch(op.mode, 0x10, s) == 0 && Fetch(op.mode, 0x10, t) == 1
    ensures EffectOf(op, 0x10, s).z == Some(true) && EffectOf(op, 0x10, t).z == Some(false)
  {
    hide EffectOf, Fetch;
    CompareEffectIs(op, 0x10, s);
    CompareEffectIs(op, 0x10, t);
    assert EffectOf(op, 0x10, s) == Compared(0, 0) && EffectOf(op, 0x10, t) == Compared(0, 1);
  }

  lemma SmallSums()
    ensures Sum(0, 0, false).z == Some(true) && Sum(0, 1, false).z == Some(false)
  {
  }

  lemma AdditionTells(op: Op, s: State, t: State)
    requires op.mnemonic.ADC? && s.a == t.a == 0 && !s.c && !t.c
    requires Fetch(op.mode, 0x10, s) == 0 && Fetch(op.mode, 0x10, t) == 1
    ensures EffectOf(op, 0x10, s).z == Some(true) && EffectOf(op, 0x10, t).z == Some(false)
  {
    hide EffectOf, Fetch, Sum, Sets;
    SmallSums();
    SumEffectIs(op, 0x10, s);
    SumEffectIs(op, 0x10, t);
    assert EffectOf(op, 0x10, s) == Sum(0, 0, false) && EffectOf(op, 0x10, t) == Sum(0, 1, false);
  }

  lemma SubtractionTells(op: Op, s: State, t: State)
    requires op.mnemonic.SBC? && s.a == t.a == 0 && s.c && t.c
    requires Fetch(op.mode, 0x10, s) == 0 && Fetch(op.mode, 0x10, t) == 1
    ensures EffectOf(op, 0x10, s).z == Some(true) && EffectOf(op, 0x10, t).z == Some(false)
  {
    hide EffectOf, Fetch, Difference, Sets;
    SumEffectIs(op, 0x10, s);
    SumEffectIs(op, 0x10, t);
    DifferenceZero(s.a, Fetch(op.mode, 0x10, s));
    DifferenceZero(t.a, Fetch(op.mode, 0x10, t));
  }

  lemma IndexSeenByReckoning(op: Op, r: Flow.Register)
    requires IndexedBy(op.mode, r) && Reckons(op.mnemonic)
    ensures Matters(op, r)
  {
    hide EffectOf, Address, Fetch, Matters, Indexing, Put;
    var m := op.mnemonic;
    var a, c := if m.AND? then 1 else 0, m.SBC?;
    var s := Indexing(op.mode, a, c);
    var t := Put(s, r, 1);
    IndexedAddresses(op.mode, r, a, c);
    IndexedFetch(op.mode, r, a, c);
    if m.CMP? { CompareTells(op, s, t); }
    else if m.ADC? { AdditionTells(op, s, t); }
    else if m.SBC? { SubtractionTells(op, s, t); }
    else { LogicTells(op, s, t); }
    DiffersByZero(op, 0x10, s, r, 1);
  }

  lemma IndexSeenByStore(op: Op, r: Flow.Register)
    requires IndexedBy(op.mode, r)
      && ((Stores(op.mnemonic) && !(op.mnemonic.STX? && r.RX?) && !(op.mnemonic.STY? && r.RY?))
      || Modifies(op.mnemonic))
    ensures Matters(op, r)
  {
    hide EffectOf, Address, Fetch, Matters, Indexing, Put;
    var s := Indexing(op.mode, 0, false);
    var t := Put(s, r, 1);
    IndexedAddresses(op.mode, r, 0, false);
    IndexedFetch(op.mode, r, 0, false);
    if Stores(op.mnemonic) {
      StoreEffectIs(op, 0x10, s);
      StoreEffectIs(op, 0x10, t);
    } else {
      ModifyEffectIs(op, 0x10, s);
      ModifyEffectIs(op, 0x10, t);
    }
    DiffersByStore(op, 0x10, s, r, 1, Other(op.mode));
  }

  predicate UsesIndex(m: Mnemonic, r: Flow.Register) {
    Loads(m) || Reckons(m) || Modifies(m) || (Stores(m) && !(m.STX? && r.RX?) && !(m.STY? && r.RY?))
  }

  lemma ArithmeticIndexed(aaa: nat, bbb: nat, op: Op, r: Flow.Register)
    requires aaa < 8 && bbb < 8 && Pattern.Arithmetic(aaa, bbb) == Some(op)
    ensures UsesIndex(op.mnemonic, r) && !TakesX(op.mnemonic) && !TakesY(op.mnemonic)
  {
  }

  lemma ModifyingIndexed(aaa: nat, bbb: nat, op: Op, r: Flow.Register)
    requires aaa < 8 && bbb < 8 && Pattern.Modifying(aaa, bbb) == Some(op) && IndexedBy(op.mode, r)
    ensures UsesIndex(op.mnemonic, r) && (r.RX? ==> !TakesX(op.mnemonic)) && (r.RY? ==> !TakesY(op.mnemonic))
  {
  }

  lemma ControllingIndexed(aaa: nat, bbb: nat, op: Op, r: Flow.Register)
    requires aaa < 8 && bbb < 8 && Pattern.Controlling(aaa, bbb) == Some(op) && IndexedBy(op.mode, r)
    ensures UsesIndex(op.mnemonic, r) && (r.RX? ==> !TakesX(op.mnemonic)) && (r.RY? ==> !TakesY(op.mnemonic))
  {
  }

  /** The instructions there are in indexed modes. */
  lemma IndexedMembers(opcode: byte, op: Op, r: Flow.Register)
    requires Decode(opcode) == Some(op) && IndexedBy(op.mode, r)
    ensures UsesIndex(op.mnemonic, r) && (r.RX? ==> !TakesX(op.mnemonic)) && (r.RY? ==> !TakesY(op.mnemonic))
  {
    hide Decode, Sensible, UsesIndex, TakesX, TakesY, Pattern.Arithmetic, Pattern.Modifying, Pattern.Controlling;
    Pattern.DecodeIsLaid(opcode);
    var aaa, bbb := opcode / 32, opcode / 4 % 8;
    if opcode % 4 == 0 { ControllingIndexed(aaa, bbb, op, r); }
    else if opcode % 4 == 1 { ArithmeticIndexed(aaa, bbb, op, r); }
    else { ModifyingIndexed(aaa, bbb, op, r); }
  }

  lemma IndexMatters(opcode: byte, op: Op, r: Flow.Register)
    requires Decode(opcode) == Some(op) && IndexedBy(op.mode, r)
    ensures Matters(op, r)
  {
    hide Decode, Matters, Loads, Reckons, Modifies, Stores, IndexedBy, Sensible;
    IndexedMembers(opcode, op, r);
    if Loads(op.mnemonic) { IndexSeenByLoad(op, r); }
    else if Reckons(op.mnemonic) { IndexSeenByReckoning(op, r); }
    else { IndexSeenByStore(op, r); }
  }

  /** X and Y are listed exactly where they matter, as operand or as index. */
  lemma ReadsOfIndex(opcode: byte, op: Op, r: Flow.Register)
    requires Decode(opcode) == Some(op) && !op.mnemonic.JSR? && (r.RX? || r.RY?)
    ensures Matters(op, r) <==> Flow.Has(Flow.Reads(op), r)
  {
    hide Decode, Matters, Sensible;
    if Flow.Has(Flow.Reads(op), r) {
      if IndexedBy(op.mode, r) {
        IndexMatters(opcode, op, r);
      } else {
        TakenMatters(op, r);
      }
    } else {
      NothingMatters(op, r);
    }
  }

  // ----- S -----

  /** The stack instructions, and what copies S. */
  predicate TakesS(m: Mnemonic) { m.PHA? || m.PHP? || m.PLA? || m.PLP? || m.TSX? }

  lemma PushNeedsS(op: Op)
    requires op.mnemonic.PHA? || op.mnemonic.PHP?
    ensures Matters(op, Flow.RSp)
  {
    hide EffectOf, PackFlags;
    var s := Bare(false, Filled(0)).(a := 1);
    var t := Put(s, Flow.RSp, 0);
    StoreEffectIs(op, 0, s);
    StoreEffectIs(op, 0, t);
    assert PackFlags(s) > 0 by { PackedAbove(s); }
    DiffersByStore(op, 0, s, Flow.RSp, 0, 0x1FF);
  }

  lemma PackedAbove(s: State)
    ensures PackFlags(s) > 0
  {
  }

  lemma PullEffectIs(op: Op, w: word, s: State)
    ensures op.mnemonic.PLA? ==> EffectOf(op, w, s).z == Some(Top(s) == 0)
    ensures op.mnemonic.PLP? ==> EffectOf(op, w, s).z == Some(Top(s) / 2 % 2 == 1)
  {
    hide Effect, IsMove, IsTransfer, IsLogical, IsCompare, IsArithmetic, IsCount, IsRotate, IsAdjust, IsStack,
         IsFlag, GroupOf,
         Fetch, Address, Top, PackFlags;
    Groups(op.mnemonic);
    EffectByGroup(op, Address(op.mode, w, s), Fetch(op.mode, w, s), s);
  }

  lemma PullNeedsS(op: Op)
    requires op.mnemonic.PLA? || op.mnemonic.PLP?
    ensures Matters(op, Flow.RSp)
  {
    hide EffectOf;
    var s := Bare(false, Filled(0)[0x101 := 2]);
    PullEffectIs(op, 0, s);
    PullEffectIs(op, 0, Put(s, Flow.RSp, 0));
    DiffersByZero(op, 0, s, Flow.RSp, 0);
  }

  lemma MovesWithoutS(m: Mnemonic, at: word, value: byte, s: State, v: byte)
    requires !TakesS(m)
    ensures MoveEffect(m, at, value, s.(sp := v)) == MoveEffect(m, at, value, s)
    ensures IsTransfer(m) ==> TransferEffect(m, s.(sp := v)) == TransferEffect(m, s)
  {
    hide ToA, ToX, ToY, ToMemory, GroupOf;
  }

  lemma SumsWithoutS(m: Mnemonic, value: byte, s: State, v: byte)
    ensures LogicalEffect(m, value, s.(sp := v)) == LogicalEffect(m, value, s)
    ensures CompareEffect(m, value, s.(sp := v)) == CompareEffect(m, value, s)
    ensures ArithmeticEffect(m, value, s.(sp := v)) == ArithmeticEffect(m, value, s)
  {
    hide ToA, Logic, Compared, Sum, Difference, Tested;
  }

  lemma CountsWithoutS(m: Mnemonic, s: State, v: byte)
    ensures CountEffect(m, s.(sp := v)) == CountEffect(m, s)
    ensures FlagEffect(m, s.(sp := v)) == FlagEffect(m, s)
  {
    hide ToX, ToY, Wrap;
  }

  lemma EffectWithoutS(op: Op, at: word, value: byte, s: State, v: byte)
    requires !TakesS(op.mnemonic)
    ensures Effect(op, at, value, s.(sp := v)) == Effect(op, at, value, s)
  {
    hide GroupOf, IsMove, IsTransfer, IsLogical, IsCompare, IsArithmetic, IsCount, IsRotate, IsAdjust, IsStack,
         IsFlag, MoveEffect,
         TransferEffect, LogicalEffect, CompareEffect, ArithmeticEffect, CountEffect, StackEffect, FlagEffect, Rotated, ToOperand,
         Shifted, CarryOut, Wrap;
    EffectByGroup(op, at, value, s);
    EffectByGroup(op, at, value, s.(sp := v));
    MovesWithoutS(op.mnemonic, at, value, s, v);
    SumsWithoutS(op.mnemonic, value, s, v);
    CountsWithoutS(op.mnemonic, s, v);
    if IsStack(op.mnemonic) { StackMembers(op.mnemonic); }
  }

  lemma AppliedS(s: State, h: Change, v: byte)
    ensures !Apart(Applied(s.(sp := v), h), Applied(s, h), Flow.RSp)
  {
    hide Stored;
  }

  lemma AddressWithoutS(op: Op, w: word, s: State, v: byte)
    ensures Address(op.mode, w, s.(sp := v)) == Address(op.mode, w, s)
    ensures Fetch(op.mode, w, s.(sp := v)) == Fetch(op.mode, w, s)
  {
  }

  lemma NothingFromS(op: Op, w: word, s: State, v: byte)
    requires !TakesS(op.mnemonic)
    ensures !DiffersAt(op, w, s, Flow.RSp, v)
  {
    hide Exec, Effect, Applied, Apart, Address, Fetch;
    ExecApplies(op, w, s);
    ExecApplies(op, w, s.(sp := v));
    AddressWithoutS(op, w, s, v);
    EffectWithoutS(op, Address(op.mode, w, s), Fetch(op.mode, w, s), s, v);
    AppliedS(s, EffectOf(op, w, s), v);
  }

  /** S is listed exactly where it matters, and for the calls and returns, which use the stack on their way. */
  lemma ReadsOfS(op: Op)
    ensures Flow.Has(Flow.Reads(op), Flow.RSp) <==>
      Matters(op, Flow.RSp) || op.mnemonic.JSR? || Flow.Returns(op.mnemonic)
  {
    hide Matters, DiffersAt;
    var m := op.mnemonic;
    if m.PHA? || m.PHP? { PushNeedsS(op); }
    else if m.PLA? || m.PLP? { PullNeedsS(op); }
    else if m.TSX? { TransferNeeds(op, Flow.RSp); }
    else { ForgetS(op); }
  }

  lemma ForgetS(op: Op)
    requires !TakesS(op.mnemonic)
    ensures !Matters(op, Flow.RSp)
  {
    hide DiffersAt;
    forall w, s, v ensures !DiffersAt(op, w, s, Flow.RSp, v) { NothingFromS(op, w, s, v); }
  }

  function NewS(m: Mnemonic, s: State): Option<byte> {
    if m.PHA? || m.PHP? then Some(if s.sp == 0 then 255 else s.sp - 1)
    else if m.PLA? || m.PLP? then Some((s.sp + 1) % 256)
    else if m.TXS? then Some(s.x)
    else None
  }

  lemma OperandKeepsS(m: Mnemonic, at: word, value: byte, s: State)
    ensures IsMove(m) ==> MoveEffect(m, at, value, s).sp == None
    ensures IsLogical(m) ==> LogicalEffect(m, value, s).sp == None
    ensures IsCompare(m) ==> CompareEffect(m, value, s).sp == None
    ensures IsArithmetic(m) ==> ArithmeticEffect(m, value, s).sp == None
  {
    hide Logic, GroupOf, IsMove, IsLogical, IsCompare, IsArithmetic, Wrap, Sets;
  }

  lemma CountKeepsS(m: Mnemonic, s: State)
    ensures IsCount(m) ==> CountEffect(m, s).sp == None
    ensures IsFlag(m) ==> FlagEffect(m, s).sp == None
  {
    hide GroupOf, IsCount, IsFlag, Wrap, Sets;
  }

  lemma BackKeepsS(mode: Mode, at: word, value: byte)
    ensures ToOperand(mode, at, value).sp == None
  {
    hide Sets;
  }

  lemma ModifyKeepsS(m: Mnemonic, mode: Mode, at: word, value: byte, s: State)
    ensures IsRotate(m) ==> RotateEffect(mode, m, at, value, s).sp == None
    ensures IsAdjust(m) ==> AdjustEffect(mode, m, at, value, s).sp == None
  {
    hide GroupOf, IsRotate, IsAdjust, Wrap, Sets, Shifted, CarryOut, ToOperand;
    forall v: byte { BackKeepsS(mode, at, v); }
  }

  lemma StackSetsS(m: Mnemonic, s: State)
    ensures IsStack(m) ==> StackEffect(m, s).sp == NewS(m, s)
    ensures IsTransfer(m) ==> TransferEffect(m, s).sp == NewS(m, s)
  {
    hide GroupOf, IsStack, IsTransfer, PackFlags, Top, Sets;
    if IsStack(m) { StackMembers(m); }
    if IsTransfer(m) { TransferMembers(m); }
  }

  lemma NoNewS(m: Mnemonic, s: State)
    ensures NewS(m, s).Some? ==> IsStack(m) || IsTransfer(m)
  {
    hide IsArithmetic, IsCompare, IsMove, IsRotate, IsStack, IsTransfer, IsCount;
    Groups(m);
  }

  lemma EffectOnS(op: Op, at: word, value: byte, s: State)
    ensures Effect(op, at, value, s).sp == NewS(op.mnemonic, s)
  {
    hide NewS, Effect, MoveEffect, TransferEffect, LogicalEffect, CompareEffect, ArithmeticEffect, CountEffect,
         RotateEffect, AdjustEffect,
         StackEffect, FlagEffect, GroupOf;
    var m := op.mnemonic;
    EffectByGroup(op, at, value, s);
    OperandKeepsS(m, at, value, s);
    CountKeepsS(m, s);
    ModifyKeepsS(m, op.mode, at, value, s);
    StackSetsS(m, s);
    NoNewS(m, s);
    if !IsStack(m) && !IsTransfer(m) && GroupOf(m) != Controls { Grouped(m); }
  }

  lemma Grouped(m: Mnemonic)
    ensures IsMove(m) || IsTransfer(m) || IsLogical(m) || IsCompare(m) || IsArithmetic(m) || IsCount(m) || IsRotate(m)
      || IsAdjust(m) || IsStack(m) || IsFlag(m) || GroupOf(m) == Controls
  {
    hide GroupOf;
  }

  /** What changes S, by the table, and by how much; JSR is followed until it has come back. */
  lemma ChangesOfS(op: Op, w: word, s: State)
    ensures var after := Exec(op, w, s).sp;
      && (Flow.Delta(op.mnemonic).Some? ==> after == (s.sp + Flow.Delta(op.mnemonic).value) % 256)
      && (op.mnemonic.TXS? ==> after == s.x)
    ensures Flow.Delta(op.mnemonic).None? <==> op.mnemonic.TXS? || Flow.Returns(op.mnemonic)
  {
    hide Address, Fetch, Exec, Effect, Stored;
    ExecApplies(op, w, s);
    EffectOnS(op, Address(op.mode, w, s), Fetch(op.mode, w, s), s);
  }

  /** S is listed as written exactly where something changes it. */
  lemma WritesOfS(op: Op)
    ensures Flow.Has(Flow.Writes(op), Flow.RSp) <==> exists w, s :: ChangesS(op, w, s)
  {
    hide ChangesS;
    forall w, s ensures ChangesS(op, w, s) <==> Else(NewS(op.mnemonic, s), s.sp) != s.sp { NewSIs(op, w, s); }
    var s := Bare(false, Filled(0));
    assert Flow.Has(Flow.Writes(op), Flow.RSp) ==> ChangesS(op, 0, s);
  }

  ghost predicate ChangesS(op: Op, w: word, s: State) { Exec(op, w, s).sp != s.sp }

  lemma NewSIs(op: Op, w: word, s: State)
    ensures ChangesS(op, w, s) <==> Else(NewS(op.mnemonic, s), s.sp) != s.sp
  {
    hide Address, Fetch, Exec, Effect, Stored, NewS;
    ExecApplies(op, w, s);
    EffectOnS(op, Address(op.mode, w, s), Fetch(op.mode, w, s), s);
  }

  // ----- flags -----

  predicate ApartFrom(e: State, g: State, f: FlagName) {
    || e.a != g.a || e.x != g.x || e.y != g.y || e.sp != g.sp || e.mem != g.mem
    || (!f.FC? && e.c != g.c) || (!f.FZ? && e.z != g.z) || (!f.FN? && e.n != g.n)
    || (!f.FV? && e.v != g.v) || (!f.FD? && e.d != g.d) || (!f.FI? && e.i != g.i)
  }

  ghost predicate FlagDiffersAt(op: Op, w: word, s: State, f: FlagName, b: bool) {
    || ApartFrom(Exec(op, w, WithFlag(s, f, b)), Exec(op, w, s), f)
    || (op.mode == Relative && Taken(op.mnemonic, WithFlag(s, f, b)) != Taken(op.mnemonic, s))
  }

  /** Changing some flag before the instruction can change something else after it, or where control goes. */
  ghost predicate SomeFlagMatters(op: Op) { exists w, s, f, b :: FlagDiffersAt(op, w, s, f, b) }

  lemma PassesThrough(e: State, f: FlagName, b: bool)
    ensures !ApartFrom(WithFlag(e, f, b), e, f)
  {
    match f
    case FC =>
    case FZ =>
    case FN =>
    case FV =>
    case FD =>
    case FI =>
  }

  lemma UnusedFlags(op: Op, w: word, s: State, f: FlagName, b: bool)
    requires !UsesFlag(op.mnemonic, f) && op.mode != Relative
    ensures !FlagDiffersAt(op, w, s, f, b)
  {
    hide Exec, UsesFlag, SetsFlag, WithFlag, ApartFrom;
    FlagsOneByOne(op, w, s, f, b);
    PassesThrough(Exec(op, w, s), f, b);
    assert !ApartFrom(Exec(op, w, s), Exec(op, w, s), f) by { Itself(Exec(op, w, s), f); }
  }

  lemma Itself(e: State, f: FlagName)
    ensures !ApartFrom(e, e, f)
  {
  }

  /** Which flag a branch looks at, and a state in which another value of it goes the other way. */
  lemma BranchNeedsFlag(op: Op)
    requires Sensible(op) && op.mode == Relative
    ensures SomeFlagMatters(op)
  {
    hide Exec, ApartFrom;
    var m := op.mnemonic;
    var f := if m.BCC? || m.BCS? then FC else if m.BEQ? || m.BNE? then FZ else if m.BMI? || m.BPL? then FN else FV;
    assert FlagDiffersAt(op, 0, Bare(false, Filled(0)), f, true);
  }

  lemma FlagDiffersBy(op: Op, w: word, s: State, f: FlagName, b: bool)
    requires ApartFrom(Applied(WithFlag(s, f, b), EffectOf(op, w, WithFlag(s, f, b))), Applied(s, EffectOf(op, w, s)), f)
    ensures SomeFlagMatters(op)
  {
    hide Exec, EffectOf, Applied, ApartFrom, WithFlag;
    ExecApplies(op, w, s);
    ExecApplies(op, w, WithFlag(s, f, b));
    assert FlagDiffersAt(op, w, s, f, b);
  }

  lemma SumNeedsFlag(op: Op)
    requires op.mnemonic.ADC? || op.mnemonic.SBC?
    ensures SomeFlagMatters(op)
  {
    hide EffectOf, Fetch, Stored, Sets;
    var s := Bare(false, Filled(0));
    var t := WithFlag(s, FC, true);
    SumEffectIs(op, 0, s);
    SumEffectIs(op, 0, t);
    assert Fetch(op.mode, 0, t) == Fetch(op.mode, 0, s) by { FlagFetch(op.mode, s, true); }
    FlagDiffersBy(op, 0, s, FC, true);
  }

  lemma FlagFetch(mode: Mode, s: State, c: bool)
    ensures Fetch(mode, 0, s.(c := c)) == Fetch(mode, 0, s) && Address(mode, 0, s.(c := c)) == Address(mode, 0, s)
  {
  }

  lemma RotatedEffectIs(op: Op, w: word, s: State)
    requires op.mnemonic.ROL? || op.mnemonic.ROR?
    ensures EffectOf(op, w, s) == RotateEffect(op.mode, op.mnemonic, Address(op.mode, w, s), Fetch(op.mode, w, s), s)
  {
    hide Effect, IsMove, IsTransfer, IsLogical, IsCompare, IsArithmetic, IsCount, IsRotate, IsAdjust, IsStack,
         IsFlag, GroupOf,
         Address, Fetch, RotateEffect;
    Groups(op.mnemonic);
    EffectByGroup(op, Address(op.mode, w, s), Fetch(op.mode, w, s), s);
  }

  lemma RotateNeedsFlag(op: Op)
    requires op.mnemonic.ROL? || op.mnemonic.ROR?
    ensures SomeFlagMatters(op)
  {
    hide EffectOf, Address, Fetch, Sets, CarryOut;
    var s := Bare(false, Filled(0));
    var t := WithFlag(s, FC, true);
    RotatedEffectIs(op, 0, s);
    RotatedEffectIs(op, 0, t);
    FlagFetch(op.mode, s, true);
    assert op.mode == Accumulator || Applied(t, EffectOf(op, 0, t)).mem[Address(op.mode, 0, s)]
      != Applied(s, EffectOf(op, 0, s)).mem[Address(op.mode, 0, s)];
    FlagDiffersBy(op, 0, s, FC, true);
  }

  lemma PushNeedsFlag(op: Op)
    requires op.mnemonic.PHP?
    ensures SomeFlagMatters(op)
  {
    hide EffectOf;
    var s := Bare(false, Filled(0));
    var t := WithFlag(s, FC, true);
    StoreEffectIs(op, 0, s);
    StoreEffectIs(op, 0, t);
    assert Applied(t, EffectOf(op, 0, t)).mem[0x1FF] != Applied(s, EffectOf(op, 0, s)).mem[0x1FF];
    FlagDiffersBy(op, 0, s, FC, true);
  }

  /** The flags are listed exactly where one of them matters. */
  lemma ReadsOfFlags(op: Op)
    requires Sensible(op)
    ensures Flow.Has(Flow.Reads(op), Flow.RFlags) <==> SomeFlagMatters(op)
  {
    hide SomeFlagMatters;
    var m := op.mnemonic;
    if op.mode == Relative { BranchNeedsFlag(op); }
    else if m.ADC? || m.SBC? { SumNeedsFlag(op); }
    else if m.ROL? || m.ROR? { RotateNeedsFlag(op); }
    else if m.PHP? { PushNeedsFlag(op); }
    else { NoFlagMatters(op); }
  }

  lemma NoFlagMatters(op: Op)
    requires forall f :: !UsesFlag(op.mnemonic, f)
    requires op.mode != Relative
    ensures !SomeFlagMatters(op)
  {
    hide FlagDiffersAt, UsesFlag;
    forall w, s, f, b ensures !FlagDiffersAt(op, w, s, f, b) { UnusedFlags(op, w, s, f, b); }
  }

  /** What the table adds for the instructions that run other code: a called routine may read and set any register. */
  lemma CallsAndReturns(r: Flow.Register)
    ensures Flow.Has(Flow.Reads(Op(JSR, Absolute)), r) <==> !r.RFlags?
    ensures Flow.Has(Flow.Writes(Op(JSR, Absolute)), r) <==> !r.RSp?
    ensures Flow.Has(Flow.Writes(Op(RTI, Implied)), r) <==> r.RFlags?
  {
  }

  // ----- what is written -----

  lemma FieldWritten(op: Op, at: word, value: byte, s: State, r: Flow.Register)
    requires Tracked(r) && Sensible(op) && !op.mnemonic.JSR?
    ensures Field(Effect(op, at, value, s), r).Some? <==> Flow.Has(Flow.Writes(op), r)
  {
    hide GroupOf, Sensible, Flow.Writes, IsMove, IsTransfer, IsLogical, IsCompare, IsArithmetic, IsCount, IsRotate,
         IsAdjust, IsStack,
         IsFlag, MoveEffect, TransferEffect, LogicalEffect, CompareEffect, ArithmeticEffect, CountEffect, RotateEffect,
         AdjustEffect, StackEffect, FlagEffect, Effect;
    var m := op.mnemonic;
    EffectByGroup(op, at, value, s);
    if IsMove(m) { MoveWrites(op, at, value, s, r); }
    else if IsTransfer(m) { TransferWrites(op, s, r); }
    else if IsLogical(m) { LogicalWrites(op, value, s, r); }
    else if IsCompare(m) { CompareWrites(op, value, s, r); }
    else if IsArithmetic(m) { ArithmeticWrites(op, value, s, r); }
    else if IsCount(m) { CountWrites(op, s, r); }
    else if IsRotate(m) { RotateWrites(op, at, value, s, r); }
    else if IsAdjust(m) { AdjustWrites(op, at, value, s, r); }
    else if IsStack(m) { StackWrites(op, s, r); }
    else if IsFlag(m) { FlagWrites(op, s, r); }
    else {
      LastGroup(m);
      OtherBlind(op, r);
    }
  }

  /** A, X and Y are listed as written exactly where the instruction sets them; where it does not, they are kept. */
  lemma WritesOfRegister(op: Op, w: word, s: State, r: Flow.Register)
    requires Tracked(r) && Sensible(op) && !op.mnemonic.JSR?
    ensures Flow.Has(Flow.Writes(op), r) <==> Field(EffectOf(op, w, s), r).Some?
    ensures !Flow.Has(Flow.Writes(op), r) ==> Value(Exec(op, w, s), r) == Value(s, r)
  {
    hide Exec, Effect, Address, Fetch, Sensible, Flow.Writes, Stored;
    ExecApplies(op, w, s);
    FieldWritten(op, Address(op.mode, w, s), Fetch(op.mode, w, s), s, r);
  }
}
