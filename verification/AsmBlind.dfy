/**
 * Instructions and registers: one that does not read a register by the effect table behaves the same whatever it
 * holds.
 */
module AsmBlind {
  import opened Wrappers
  import opened Bits
  import opened Isa
  import opened Cpu
  import opened CpuChange
  import Flow = AsmGraph

  // ----- one instruction, one register at a time -----

  predicate Tracked(r: Flow.Register) { r.RA? || r.RX? || r.RY? }

  function With(s: State, r: Flow.Register, v: byte): State
    requires Tracked(r)
  {
    match r
    case RA => s.(a := v)
    case RX => s.(x := v)
    case RY => s.(y := v)
  }

  /** What the table promises of an instruction for a register whose value it does not read. */
  ghost predicate Blind(op: Op, w: word, s: State, r: Flow.Register, v: byte)
    requires Tracked(r)
  {
    Exec(op, w, With(s, r, v)) ==
      if Flow.Has(Flow.Writes(op), r) then Exec(op, w, s) else With(Exec(op, w, s), r, v)
  }

  lemma AddressBlind(op: Op, w: word, s: State, r: Flow.Register, v: byte)
    requires Tracked(r) && Sensible(op) && !Flow.Has(Flow.Reads(op), r)
    ensures Address(op.mode, w, With(s, r, v)) == Address(op.mode, w, s)
    ensures Fetch(op.mode, w, With(s, r, v)) == Fetch(op.mode, w, s)
  {
    hide Sensible, Flow.Reads;
    ReadsOperand(op);
    match r
    case RA =>
    case RX =>
    case RY =>
  }

  /** The table lists what an operand's address and an operand in A need. */
  lemma ReadsOperand(op: Op)
    requires Sensible(op)
    ensures op.mode == Accumulator ==> Flow.Has(Flow.Reads(op), Flow.RA)
    ensures op.mode == ZeroPageX || op.mode == AbsoluteX || op.mode == IndexedIndirectX ==>
      Flow.Has(Flow.Reads(op), Flow.RX)
    ensures op.mode == ZeroPageY || op.mode == AbsoluteY || op.mode == IndirectIndexedY ==>
      Flow.Has(Flow.Reads(op), Flow.RY)
  {
  }

  // ----- registers -----

  /** BIT uses A although the table does not say so, and a called routine may use anything. */
  predicate Honest(op: Op, r: Flow.Register) { !op.mnemonic.JSR? && !(r.RA? && op.mnemonic.BIT?) }

  // Apart from its operand, an instruction uses no register but those the table lists, and it sets exactly those listed.

  lemma MoveIgnores(op: Op, at: word, value: byte, s: State, r: Flow.Register, v: byte)
    requires IsMove(op.mnemonic) && Tracked(r) && Honest(op, r) && !Flow.Has(Flow.Reads(op), r)
    ensures MoveEffect(op.mnemonic, at, value, With(s, r, v)) == MoveEffect(op.mnemonic, at, value, s)
  {
    hide Logic, Wrap, Carry, CarryOut, Shifted, ToA, ToX, ToY, ToMemory, ToOperand, Rotated, Sum, Difference,
         Compared, Pushed, Pulled, Flags, Tested, GroupOf, IsMove;
    MoveMembers(op.mnemonic);
    match r
    case RA =>
    case RX =>
    case RY =>
  }

  lemma MoveWrites(op: Op, at: word, value: byte, s: State, r: Flow.Register)
    requires IsMove(op.mnemonic) && Sensible(op) && Tracked(r)
    ensures Field(MoveEffect(op.mnemonic, at, value, s), r).Some? <==> Flow.Has(Flow.Writes(op), r)
  {
    hide Logic, Wrap, Carry, CarryOut, Shifted, ToA, ToX, ToY, ToMemory, ToOperand, Rotated, Sum, Difference,
         Compared, Pushed, Pulled, Flags, Tested, GroupOf, IsMove;
    MoveMembers(op.mnemonic);
    match r
    case RA =>
    case RX =>
    case RY =>
  }

  lemma TransferIgnores(op: Op, s: State, r: Flow.Register, v: byte)
    requires IsTransfer(op.mnemonic) && Tracked(r) && Honest(op, r) && !Flow.Has(Flow.Reads(op), r)
    ensures TransferEffect(op.mnemonic, With(s, r, v)) == TransferEffect(op.mnemonic, s)
  {
    hide Logic, Wrap, Carry, CarryOut, Shifted, ToA, ToX, ToY, ToMemory, ToOperand, Rotated, Sum, Difference,
         Compared, Pushed, Pulled, Flags, Tested, GroupOf, IsTransfer;
    TransferMembers(op.mnemonic);
    match r
    case RA =>
    case RX =>
    case RY =>
  }

  lemma TransferWrites(op: Op, s: State, r: Flow.Register)
    requires IsTransfer(op.mnemonic) && Sensible(op) && Tracked(r)
    ensures Field(TransferEffect(op.mnemonic, s), r).Some? <==> Flow.Has(Flow.Writes(op), r)
  {
    hide Logic, Wrap, Carry, CarryOut, Shifted, ToA, ToX, ToY, ToMemory, ToOperand, Rotated, Sum, Difference,
         Compared, Pushed, Pulled, Flags, Tested, GroupOf, IsTransfer;
    TransferMembers(op.mnemonic);
    match r
    case RA =>
    case RX =>
    case RY =>
  }

  lemma LogicalIgnores(op: Op, value: byte, s: State, r: Flow.Register, v: byte)
    requires IsLogical(op.mnemonic) && Tracked(r) && Honest(op, r) && !Flow.Has(Flow.Reads(op), r)
    ensures LogicalEffect(op.mnemonic, value, With(s, r, v)) == LogicalEffect(op.mnemonic, value, s)
  {
    hide Logic, Wrap, Carry, CarryOut, Shifted, ToA, ToX, ToY, ToMemory, ToOperand, Rotated, Sum, Difference,
         Compared, Pushed, Pulled, Flags, Tested, GroupOf, IsLogical;
    LogicalMembers(op.mnemonic);
    match r
    case RA =>
    case RX =>
    case RY =>
  }

  lemma LogicalWrites(op: Op, value: byte, s: State, r: Flow.Register)
    requires IsLogical(op.mnemonic) && Sensible(op) && Tracked(r)
    ensures Field(LogicalEffect(op.mnemonic, value, s), r).Some? <==> Flow.Has(Flow.Writes(op), r)
  {
    hide Logic, Wrap, Carry, CarryOut, Shifted, ToA, ToX, ToY, ToMemory, ToOperand, Rotated, Sum, Difference,
         Compared, Pushed, Pulled, Flags, Tested, GroupOf, IsLogical;
    LogicalMembers(op.mnemonic);
    match r
    case RA =>
    case RX =>
    case RY =>
  }

  lemma CompareIgnores(op: Op, value: byte, s: State, r: Flow.Register, v: byte)
    requires IsCompare(op.mnemonic) && Tracked(r) && Honest(op, r) && !Flow.Has(Flow.Reads(op), r)
    ensures CompareEffect(op.mnemonic, value, With(s, r, v)) == CompareEffect(op.mnemonic, value, s)
  {
    hide Logic, Wrap, Carry, CarryOut, Shifted, ToA, ToX, ToY, ToMemory, ToOperand, Rotated, Sum, Difference,
         Compared, Pushed, Pulled, Flags, Tested, GroupOf, IsCompare;
    CompareMembers(op.mnemonic);
    match r
    case RA =>
    case RX =>
    case RY =>
  }

  lemma CompareWrites(op: Op, value: byte, s: State, r: Flow.Register)
    requires IsCompare(op.mnemonic) && Sensible(op) && Tracked(r)
    ensures Field(CompareEffect(op.mnemonic, value, s), r).Some? <==> Flow.Has(Flow.Writes(op), r)
  {
    hide Logic, Wrap, Carry, CarryOut, Shifted, ToA, ToX, ToY, ToMemory, ToOperand, Rotated, Sum, Difference,
         Compared, Pushed, Pulled, Flags, Tested, GroupOf, IsCompare;
    CompareMembers(op.mnemonic);
    match r
    case RA =>
    case RX =>
    case RY =>
  }

  lemma ArithmeticIgnores(op: Op, value: byte, s: State, r: Flow.Register, v: byte)
    requires IsArithmetic(op.mnemonic) && Tracked(r) && Honest(op, r) && !Flow.Has(Flow.Reads(op), r)
    ensures ArithmeticEffect(op.mnemonic, value, With(s, r, v)) == ArithmeticEffect(op.mnemonic, value, s)
  {
    hide Logic, Wrap, Carry, CarryOut, Shifted, ToA, ToX, ToY, ToMemory, ToOperand, Rotated, Sum, Difference,
         Compared, Pushed, Pulled, Flags, Tested, GroupOf, IsArithmetic;
    ArithmeticMembers(op.mnemonic);
    match r
    case RA =>
    case RX =>
    case RY =>
  }

  lemma ArithmeticWrites(op: Op, value: byte, s: State, r: Flow.Register)
    requires IsArithmetic(op.mnemonic) && Sensible(op) && Tracked(r)
    ensures Field(ArithmeticEffect(op.mnemonic, value, s), r).Some? <==> Flow.Has(Flow.Writes(op), r)
  {
    hide Logic, Wrap, Carry, CarryOut, Shifted, ToA, ToX, ToY, ToMemory, ToOperand, Rotated, Sum, Difference,
         Compared, Pushed, Pulled, Flags, Tested, GroupOf, IsArithmetic;
    ArithmeticMembers(op.mnemonic);
    match r
    case RA =>
    case RX =>
    case RY =>
  }

  lemma CountIgnores(op: Op, s: State, r: Flow.Register, v: byte)
    requires IsCount(op.mnemonic) && Tracked(r) && Honest(op, r) && !Flow.Has(Flow.Reads(op), r)
    ensures CountEffect(op.mnemonic, With(s, r, v)) == CountEffect(op.mnemonic, s)
  {
    hide Logic, Wrap, Carry, CarryOut, Shifted, ToA, ToX, ToY, ToMemory, ToOperand, Rotated, Sum, Difference,
         Compared, Pushed, Pulled, Flags, Tested, GroupOf, IsCount;
    CountMembers(op.mnemonic);
    match r
    case RA =>
    case RX =>
    case RY =>
  }

  lemma CountWrites(op: Op, s: State, r: Flow.Register)
    requires IsCount(op.mnemonic) && Sensible(op) && Tracked(r)
    ensures Field(CountEffect(op.mnemonic, s), r).Some? <==> Flow.Has(Flow.Writes(op), r)
  {
    hide Logic, Wrap, Carry, CarryOut, Shifted, ToA, ToX, ToY, ToMemory, ToOperand, Rotated, Sum, Difference,
         Compared, Pushed, Pulled, Flags, Tested, GroupOf, IsCount;
    CountMembers(op.mnemonic);
    match r
    case RA =>
    case RX =>
    case RY =>
  }

  lemma RotateIgnores(op: Op, at: word, value: byte, s: State, r: Flow.Register, v: byte)
    requires IsRotate(op.mnemonic) && Tracked(r) && Honest(op, r) && !Flow.Has(Flow.Reads(op), r)
    ensures RotateEffect(op.mode, op.mnemonic, at, value, With(s, r, v))
      == RotateEffect(op.mode, op.mnemonic, at, value, s)
  {
    hide Logic, Wrap, Carry, CarryOut, Shifted, ToA, ToX, ToY, ToMemory, ToOperand, Rotated, Sum, Difference,
         Compared, Pushed, Pulled, Flags, Tested, GroupOf, IsRotate;
    RotateMembers(op.mnemonic);
    match r
    case RA =>
    case RX =>
    case RY =>
  }

  lemma RotateWrites(op: Op, at: word, value: byte, s: State, r: Flow.Register)
    requires IsRotate(op.mnemonic) && Sensible(op) && Tracked(r)
    ensures Field(RotateEffect(op.mode, op.mnemonic, at, value, s), r).Some? <==> Flow.Has(Flow.Writes(op), r)
  {
    hide Logic, Wrap, Carry, CarryOut, Shifted, ToA, ToX, ToY, ToMemory, ToOperand, Rotated, Sum, Difference,
         Compared, Pushed, Pulled, Flags, Tested, GroupOf, IsRotate;
    RotateMembers(op.mnemonic);
    match r
    case RA =>
    case RX =>
    case RY =>
  }

  lemma AdjustIgnores(op: Op, at: word, value: byte, s: State, r: Flow.Register, v: byte)
    requires IsAdjust(op.mnemonic) && Tracked(r) && Honest(op, r) && !Flow.Has(Flow.Reads(op), r)
    ensures AdjustEffect(op.mode, op.mnemonic, at, value, With(s, r, v))
      == AdjustEffect(op.mode, op.mnemonic, at, value, s)
  {
    hide Logic, Wrap, Carry, CarryOut, Shifted, ToA, ToX, ToY, ToMemory, ToOperand, Rotated, Sum, Difference,
         Compared, Pushed, Pulled, Flags, Tested, GroupOf, IsAdjust;
    AdjustMembers(op.mnemonic);
    match r
    case RA =>
    case RX =>
    case RY =>
  }

  lemma AdjustWrites(op: Op, at: word, value: byte, s: State, r: Flow.Register)
    requires IsAdjust(op.mnemonic) && Sensible(op) && Tracked(r)
    ensures Field(AdjustEffect(op.mode, op.mnemonic, at, value, s), r).Some? <==> Flow.Has(Flow.Writes(op), r)
  {
    hide Logic, Wrap, Carry, CarryOut, Shifted, ToA, ToX, ToY, ToMemory, ToOperand, Rotated, Sum, Difference,
         Compared, Pushed, Pulled, Flags, Tested, GroupOf, IsAdjust;
    AdjustMembers(op.mnemonic);
    match r
    case RA =>
    case RX =>
    case RY =>
  }

  lemma StackIgnores(op: Op, s: State, r: Flow.Register, v: byte)
    requires IsStack(op.mnemonic) && Tracked(r) && Honest(op, r) && !Flow.Has(Flow.Reads(op), r)
    ensures StackEffect(op.mnemonic, With(s, r, v)) == StackEffect(op.mnemonic, s)
  {
    hide Logic, Wrap, Carry, CarryOut, Shifted, ToA, ToX, ToY, ToMemory, ToOperand, Rotated, Sum, Difference,
         Compared, Pushed, Pulled, Flags, Tested, GroupOf, IsStack, PackFlags, Top;
    StackMembers(op.mnemonic);
    PackedWith(s, r, v);
    match r
    case RA =>
    case RX =>
    case RY =>
  }

  lemma StackWrites(op: Op, s: State, r: Flow.Register)
    requires IsStack(op.mnemonic) && Sensible(op) && Tracked(r)
    ensures Field(StackEffect(op.mnemonic, s), r).Some? <==> Flow.Has(Flow.Writes(op), r)
  {
    hide Logic, Wrap, Carry, CarryOut, Shifted, ToA, ToX, ToY, ToMemory, ToOperand, Rotated, Sum, Difference,
         Compared, Pushed, Pulled, Flags, Tested, GroupOf, IsStack, PackFlags, Top;
    StackMembers(op.mnemonic);
    match r
    case RA =>
    case RX =>
    case RY =>
  }

  lemma FlagIgnores(op: Op, s: State, r: Flow.Register, v: byte)
    requires IsFlag(op.mnemonic) && Tracked(r) && Honest(op, r) && !Flow.Has(Flow.Reads(op), r)
    ensures FlagEffect(op.mnemonic, With(s, r, v)) == FlagEffect(op.mnemonic, s)
  {
    hide Logic, Wrap, Carry, CarryOut, Shifted, ToA, ToX, ToY, ToMemory, ToOperand, Rotated, Sum, Difference,
         Compared, Pushed, Pulled, Flags, Tested, GroupOf, IsFlag;
    FlagMembers(op.mnemonic);
    match r
    case RA =>
    case RX =>
    case RY =>
  }

  lemma FlagWrites(op: Op, s: State, r: Flow.Register)
    requires IsFlag(op.mnemonic) && Sensible(op) && Tracked(r)
    ensures Field(FlagEffect(op.mnemonic, s), r).Some? <==> Flow.Has(Flow.Writes(op), r)
  {
    hide Logic, Wrap, Carry, CarryOut, Shifted, ToA, ToX, ToY, ToMemory, ToOperand, Rotated, Sum, Difference,
         Compared, Pushed, Pulled, Flags, Tested, GroupOf, IsFlag;
    FlagMembers(op.mnemonic);
    match r
    case RA =>
    case RX =>
    case RY =>
  }

  lemma PackedWith(s: State, r: Flow.Register, v: byte)
    requires Tracked(r)
    ensures PackFlags(With(s, r, v)) == PackFlags(s) && Top(With(s, r, v)) == Top(s)
  {
    match r
    case RA =>
    case RX =>
    case RY =>
  }

  lemma OtherBlind(op: Op, r: Flow.Register)
    requires GroupOf(op.mnemonic) == Controls && !op.mnemonic.JSR? && Tracked(r)
    ensures !Flow.Has(Flow.Writes(op), r)
  {
    hide GroupOf;
    ControlMembers(op.mnemonic);
  }

  /** What an instruction does to a register's change. */
  lemma EffectBlind(op: Op, at: word, value: byte, s: State, r: Flow.Register, v: byte)
    requires Tracked(r) && Sensible(op) && Honest(op, r) && !Flow.Has(Flow.Reads(op), r)
    ensures Effect(op, at, value, With(s, r, v)) == Effect(op, at, value, s)
    ensures Field(Effect(op, at, value, s), r).Some? <==> Flow.Has(Flow.Writes(op), r)
  {
    hide GroupOf, Sensible, With, Flow.Reads, Flow.Writes, IsMove, IsTransfer, IsLogical, IsCompare,
         IsArithmetic, IsCount, IsRotate, IsAdjust, IsStack, IsFlag, MoveEffect, TransferEffect, LogicalEffect,
         CompareEffect, ArithmeticEffect, CountEffect, RotateEffect, AdjustEffect, StackEffect, FlagEffect;
    var m := op.mnemonic;
    if IsMove(m) {
      MoveIgnores(op, at, value, s, r, v);
      MoveWrites(op, at, value, s, r);
    } else if IsTransfer(m) {
      TransferIgnores(op, s, r, v);
      TransferWrites(op, s, r);
    } else if IsLogical(m) {
      LogicalIgnores(op, value, s, r, v);
      LogicalWrites(op, value, s, r);
    } else if IsCompare(m) {
      CompareIgnores(op, value, s, r, v);
      CompareWrites(op, value, s, r);
    } else if IsArithmetic(m) {
      ArithmeticIgnores(op, value, s, r, v);
      ArithmeticWrites(op, value, s, r);
    } else if IsCount(m) {
      CountIgnores(op, s, r, v);
      CountWrites(op, s, r);
    } else if IsRotate(m) {
      RotateIgnores(op, at, value, s, r, v);
      RotateWrites(op, at, value, s, r);
    } else if IsAdjust(m) {
      AdjustIgnores(op, at, value, s, r, v);
      AdjustWrites(op, at, value, s, r);
    } else if IsStack(m) {
      StackIgnores(op, s, r, v);
      StackWrites(op, s, r);
    } else if IsFlag(m) {
      FlagIgnores(op, s, r, v);
      FlagWrites(op, s, r);
    } else {
      LastGroup(m);
      OtherBlind(op, r);
    }
  }

  function Field(h: Change, r: Flow.Register): Option<byte>
    requires Tracked(r)
  {
    match r
    case RA => h.a
    case RX => h.x
    case RY => h.y
  }

  lemma AppliedA(s: State, h: Change, v: byte)
    ensures Applied(s.(a := v), h) == if h.a.Some? then Applied(s, h) else Applied(s, h).(a := v)
  {
    hide Else, Stored;
    ElseIs(h.a, v, s.a);
  }

  lemma AppliedX(s: State, h: Change, v: byte)
    ensures Applied(s.(x := v), h) == if h.x.Some? then Applied(s, h) else Applied(s, h).(x := v)
  {
    hide Else, Stored;
    ElseIs(h.x, v, s.x);
  }

  lemma AppliedY(s: State, h: Change, v: byte)
    ensures Applied(s.(y := v), h) == if h.y.Some? then Applied(s, h) else Applied(s, h).(y := v)
  {
    hide Else, Stored;
    ElseIs(h.y, v, s.y);
  }

  lemma AppliedWith(s: State, h: Change, r: Flow.Register, v: byte)
    requires Tracked(r)
    ensures Applied(With(s, r, v), h) == if Field(h, r).Some? then Applied(s, h) else With(Applied(s, h), r, v)
  {
    hide Applied;
    match r
    case RA => AppliedA(s, h, v);
    case RX => AppliedX(s, h, v);
    case RY => AppliedY(s, h, v);
  }

  /** An instruction that does not read a register by the table really is blind to it. */
  lemma InstructionBlind(op: Op, w: word, s: State, r: Flow.Register, v: byte)
    requires Tracked(r) && Sensible(op) && Honest(op, r) && !Flow.Has(Flow.Reads(op), r)
    ensures Blind(op, w, s, r, v)
  {
    hide Exec, Flow.Reads, Flow.Writes, Address, Fetch, Effect, Applied, With, Sensible;
    AddressBlind(op, w, s, r, v);
    ExecApplies(op, w, s);
    ExecApplies(op, w, With(s, r, v));
    EffectBlind(op, Address(op.mode, w, s), Fetch(op.mode, w, s), s, r, v);
    AppliedWith(s, EffectOf(op, w, s), r, v);
  }

  lemma TakenBlind(m: Mnemonic, s: State, r: Flow.Register, v: byte)
    requires Tracked(r)
    ensures Taken(m, With(s, r, v)) == Taken(m, s)
  {
    match r
    case RA =>
    case RX =>
    case RY =>
  }

  function Value(s: State, r: Flow.Register): byte
    requires Tracked(r)
  {
    match r
    case RA => s.a
    case RX => s.x
    case RY => s.y
  }

  lemma WithValue(s: State, r: Flow.Register, v: byte)
    requires Tracked(r)
    ensures With(s, r, Value(s, r)) == s && Value(With(s, r, v), r) == v
  {
    match r
    case RA =>
    case RX =>
    case RY =>
  }

  // ----- where the table says too little -----

  /** BIT is not listed as reading A in either of its modes, yet Z after it depends on A. */
  lemma BitReadsA(mode: Mode, s: State)
    requires (mode == ZeroPage || mode == Absolute) && s.mem[0x80] == 1
    ensures !Flow.Has(Flow.Reads(Op(BIT, mode)), Flow.RA)
    ensures Exec(Op(BIT, mode), 0x80, s.(a := 0)).z && !Exec(Op(BIT, mode), 0x80, s.(a := 1)).z
  {
    hide Exec, Logic;
    LogicOfOne();
    BitIs(mode, s.(a := 0));
    BitIs(mode, s.(a := 1));
  }

  lemma BitIs(mode: Mode, s: State)
    requires mode == ZeroPage || mode == Absolute
    ensures Exec(Op(BIT, mode), 0x80, s).z <==> Logic(BitAnd, s.a, s.mem[0x80]) == 0
  {
    hide Logic;
  }

  lemma LogicOfOne()
    ensures Logic(BitAnd, 0, 1) == 0 && Logic(BitAnd, 1, 1) == 1
  {
    Pow2Values();
    assert Pow2(0) == 1 && Pow2(1) == 2 && Pow2(2) == 4 && Pow2(3) == 8 && Pow2(4) == 16 && Pow2(5) == 32
      && Pow2(6) == 64;
    assert Bitwise(BitAnd, 1, 1, 1) == 1 && Bitwise(BitAnd, 0, 1, 1) == 0;
    assert Bitwise(BitAnd, 1, 1, 3) == 1 && Bitwise(BitAnd, 0, 1, 3) == 0;
    assert Bitwise(BitAnd, 1, 1, 5) == 1 && Bitwise(BitAnd, 0, 1, 5) == 0;
    assert Bitwise(BitAnd, 1, 1, 7) == 1 && Bitwise(BitAnd, 0, 1, 7) == 0;
  }
}
