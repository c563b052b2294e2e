/** Flags one by one: which an instruction sets, which it uses, and when all are replaced. */
module AsmFlags {
  import opened Wrappers
  import opened Bits
  import opened Isa
  import opened Cpu
  import opened CpuChange
  import Flow = AsmGraph

  // ----- flags, one by one -----

  datatype FlagName = FC | FZ | FN | FV | FD | FI

  function FlagOf(s: State, f: FlagName): bool {
    match f
    case FC => s.c
    case FZ => s.z
    case FN => s.n
    case FV => s.v
    case FD => s.d
    case FI => s.i
  }

  function WithFlag(s: State, f: FlagName, b: bool): State {
    match f
    case FC => s.(c := b)
    case FZ => s.(z := b)
    case FN => s.(n := b)
    case FV => s.(v := b)
    case FD => s.(d := b)
    case FI => s.(i := b)
  }

  function FlagField(h: Change, f: FlagName): Option<bool> {
    match f
    case FC => h.c
    case FZ => h.z
    case FN => h.n
    case FV => h.v
    case FD => h.d
    case FI => h.i
  }

  // Which flags an instruction sets; Z and N are set together.

  predicate SetsCarry(m: Mnemonic) { IsCompare(m) || IsArithmetic(m) || IsRotate(m) || m.CLC? || m.SEC? || m.PLP? }

  predicate SetsSign(m: Mnemonic) {
    || m.LDA? || m.LDX? || m.LDY? || (IsTransfer(m) && !m.TXS?) || m.PLA? || m.PLP?
    || IsLogical(m) || IsCompare(m) || IsArithmetic(m) || IsCount(m) || IsRotate(m) || IsAdjust(m)
  }

  predicate SetsOverflow(m: Mnemonic) { IsArithmetic(m) || m.BIT? || m.CLV? || m.PLP? }

  predicate SetsDecimal(m: Mnemonic) { m.CLD? || m.SED? || m.PLP? }

  predicate SetsInterrupt(m: Mnemonic) { m.CLI? || m.SEI? || m.PLP? }

  predicate SetsFlag(m: Mnemonic, f: FlagName) {
    match f
    case FC => SetsCarry(m)
    case FZ => SetsSign(m)
    case FN => SetsSign(m)
    case FV => SetsOverflow(m)
    case FD => SetsDecimal(m)
    case FI => SetsInterrupt(m)
  }

  predicate SetsFlags(h: Change, m: Mnemonic) {
    && h.c.Some? == SetsCarry(m) && h.z.Some? == SetsSign(m) && h.n.Some? == SetsSign(m)
    && h.v.Some? == SetsOverflow(m) && h.d.Some? == SetsDecimal(m) && h.i.Some? == SetsInterrupt(m)
  }

  lemma FieldSet(h: Change, m: Mnemonic, f: FlagName)
    requires SetsFlags(h, m)
    ensures FlagField(h, f).Some? <==> SetsFlag(m, f)
  {
    hide SetsCarry, SetsSign, SetsOverflow, SetsDecimal, SetsInterrupt;
  }

  /** Which flags an instruction uses, branches apart. */
  predicate UsesFlag(m: Mnemonic, f: FlagName) { (f.FC? && (m.ADC? || m.SBC? || m.ROL? || m.ROR?)) || m.PHP? }

  lemma SameButFlag(s: State, f: FlagName, b: bool)
    ensures var t := WithFlag(s, f, b);
      t.a == s.a && t.x == s.x && t.y == s.y && t.sp == s.sp && t.mem == s.mem && (f != FC ==> t.c == s.c)
        && Top(t) == Top(s)
  {
    match f
    case FC =>
    case FZ =>
    case FN =>
    case FV =>
    case FD =>
    case FI =>
  }

  lemma ShiftedAlike(m: Mnemonic, value: byte, c: bool, d: bool)
    requires m.ASL? || m.LSR?
    ensures Shifted(m, value, c) == Shifted(m, value, d)
  {
  }

  lemma MoveFlagBlind(m: Mnemonic, at: word, value: byte, s: State, f: FlagName, b: bool)
    requires IsMove(m) && !UsesFlag(m, f)
    ensures MoveEffect(m, at, value, WithFlag(s, f, b)) == MoveEffect(m, at, value, s)
  {
    hide Logic, Wrap, Carry, CarryOut, Shifted, ToA, ToX, ToY, ToMemory, ToOperand, Rotated, Sum, Difference,
         Compared, Pushed, Pulled, Flags, Tested, GroupOf, IsMove, WithFlag;
    MoveMembers(m);
    SameButFlag(s, f, b);
  }

  lemma MoveSetsFlags(m: Mnemonic, at: word, value: byte, s: State)
    requires IsMove(m)
    ensures SetsFlags(MoveEffect(m, at, value, s), m)
  {
    hide Logic, Wrap, Carry, CarryOut, Shifted, ToA, ToX, ToY, ToMemory, ToOperand, Rotated, Sum, Difference,
         Compared, Pushed, Pulled, Flags, Tested, GroupOf;
    MoveMembers(m);
    StandsOut(m);
  }

  lemma TransferFlagBlind(m: Mnemonic, s: State, f: FlagName, b: bool)
    requires IsTransfer(m) && !UsesFlag(m, f)
    ensures TransferEffect(m, WithFlag(s, f, b)) == TransferEffect(m, s)
  {
    hide Logic, Wrap, Carry, CarryOut, Shifted, ToA, ToX, ToY, ToMemory, ToOperand, Rotated, Sum, Difference,
         Compared, Pushed, Pulled, Flags, Tested, GroupOf, IsTransfer, WithFlag;
    TransferMembers(m);
    SameButFlag(s, f, b);
  }

  lemma TransferSetsFlags(m: Mnemonic, s: State)
    requires IsTransfer(m)
    ensures SetsFlags(TransferEffect(m, s), m)
  {
    hide Logic, Wrap, Carry, CarryOut, Shifted, ToA, ToX, ToY, ToMemory, ToOperand, Rotated, Sum, Difference,
         Compared, Pushed, Pulled, Flags, Tested, GroupOf;
    TransferMembers(m);
    StandsOut(m);
  }

  lemma LogicalFlagBlind(m: Mnemonic, value: byte, s: State, f: FlagName, b: bool)
    requires IsLogical(m) && !UsesFlag(m, f)
    ensures LogicalEffect(m, value, WithFlag(s, f, b)) == LogicalEffect(m, value, s)
  {
    hide Logic, Wrap, Carry, CarryOut, Shifted, ToA, ToX, ToY, ToMemory, ToOperand, Rotated, Sum, Difference,
         Compared, Pushed, Pulled, Flags, Tested, GroupOf, IsLogical, WithFlag;
    LogicalMembers(m);
    SameButFlag(s, f, b);
  }

  lemma LogicalSetsFlags(m: Mnemonic, value: byte, s: State)
    requires IsLogical(m)
    ensures SetsFlags(LogicalEffect(m, value, s), m)
  {
    hide Logic, Wrap, Carry, CarryOut, Shifted, ToA, ToX, ToY, ToMemory, ToOperand, Rotated, Sum, Difference,
         Compared, Pushed, Pulled, Flags, Tested, GroupOf;
    LogicalMembers(m);
    StandsOut(m);
  }

  lemma CompareFlagBlind(m: Mnemonic, value: byte, s: State, f: FlagName, b: bool)
    requires IsCompare(m) && !UsesFlag(m, f)
    ensures CompareEffect(m, value, WithFlag(s, f, b)) == CompareEffect(m, value, s)
  {
    hide Logic, Wrap, Carry, CarryOut, Shifted, ToA, ToX, ToY, ToMemory, ToOperand, Rotated, Sum, Difference,
         Compared, Pushed, Pulled, Flags, Tested, GroupOf, IsCompare, WithFlag;
    CompareMembers(m);
    SameButFlag(s, f, b);
  }

  lemma CompareSetsFlags(m: Mnemonic, value: byte, s: State)
    requires IsCompare(m)
    ensures SetsFlags(CompareEffect(m, value, s), m)
  {
    hide Logic, Wrap, Carry, CarryOut, Shifted, ToA, ToX, ToY, ToMemory, ToOperand, Rotated, Sum, Difference,
         Compared, Pushed, Pulled, Flags, Tested, GroupOf;
    CompareMembers(m);
    StandsOut(m);
  }

  lemma ArithmeticFlagBlind(m: Mnemonic, value: byte, s: State, f: FlagName, b: bool)
    requires IsArithmetic(m) && !UsesFlag(m, f)
    ensures ArithmeticEffect(m, value, WithFlag(s, f, b)) == ArithmeticEffect(m, value, s)
  {
    hide Logic, Wrap, Carry, CarryOut, Shifted, ToA, ToX, ToY, ToMemory, ToOperand, Rotated, Sum, Difference,
         Compared, Pushed, Pulled, Flags, Tested, GroupOf, IsArithmetic, WithFlag;
    ArithmeticMembers(m);
    SameButFlag(s, f, b);
  }

  lemma ArithmeticSetsFlags(m: Mnemonic, value: byte, s: State)
    requires IsArithmetic(m)
    ensures SetsFlags(ArithmeticEffect(m, value, s), m)
  {
    hide Logic, Wrap, Carry, CarryOut, Shifted, ToA, ToX, ToY, ToMemory, ToOperand, Rotated, Sum, Difference,
         Compared, Pushed, Pulled, Flags, Tested, GroupOf;
    ArithmeticMembers(m);
    StandsOut(m);
  }

  lemma CountFlagBlind(m: Mnemonic, s: State, f: FlagName, b: bool)
    requires IsCount(m) && !UsesFlag(m, f)
    ensures CountEffect(m, WithFlag(s, f, b)) == CountEffect(m, s)
  {
    hide Logic, Wrap, Carry, CarryOut, Shifted, ToA, ToX, ToY, ToMemory, ToOperand, Rotated, Sum, Difference,
         Compared, Pushed, Pulled, Flags, Tested, GroupOf, IsCount, WithFlag;
    CountMembers(m);
    SameButFlag(s, f, b);
  }

  lemma CountSetsFlags(m: Mnemonic, s: State)
    requires IsCount(m)
    ensures SetsFlags(CountEffect(m, s), m)
  {
    hide Logic, Wrap, Carry, CarryOut, Shifted, ToA, ToX, ToY, ToMemory, ToOperand, Rotated, Sum, Difference,
         Compared, Pushed, Pulled, Flags, Tested, GroupOf;
    CountMembers(m);
    StandsOut(m);
  }

  lemma RotateFlagBlind(mode: Mode, m: Mnemonic, at: word, value: byte, s: State, f: FlagName, b: bool)
    requires IsRotate(m) && !UsesFlag(m, f)
    ensures RotateEffect(mode, m, at, value, WithFlag(s, f, b)) == RotateEffect(mode, m, at, value, s)
  {
    hide Logic, Wrap, Carry, CarryOut, Shifted, ToA, ToX, ToY, ToMemory, ToOperand, Rotated, Sum, Difference,
         Compared, Pushed, Pulled, Flags, Tested, GroupOf, IsRotate, WithFlag;
    RotateMembers(m);
    SameButFlag(s, f, b);
    if m.ASL? || m.LSR? { ShiftedAlike(m, value, s.c, WithFlag(s, f, b).c); }
  }

  lemma RotateSetsFlags(mode: Mode, m: Mnemonic, at: word, value: byte, s: State)
    requires IsRotate(m)
    ensures SetsFlags(RotateEffect(mode, m, at, value, s), m)
  {
    hide Logic, Wrap, Carry, CarryOut, Shifted, ToA, ToX, ToY, ToMemory, ToOperand, Rotated, Sum, Difference,
         Compared, Pushed, Pulled, Flags, Tested, GroupOf;
    RotateMembers(m);
    StandsOut(m);
  }

  lemma AdjustFlagBlind(mode: Mode, m: Mnemonic, at: word, value: byte, s: State, f: FlagName, b: bool)
    requires IsAdjust(m) && !UsesFlag(m, f)
    ensures AdjustEffect(mode, m, at, value, WithFlag(s, f, b)) == AdjustEffect(mode, m, at, value, s)
  {
    hide Logic, Wrap, Carry, CarryOut, Shifted, ToA, ToX, ToY, ToMemory, ToOperand, Rotated, Sum, Difference,
         Compared, Pushed, Pulled, Flags, Tested, GroupOf, IsAdjust, WithFlag;
    AdjustMembers(m);
    SameButFlag(s, f, b);
  }

  lemma AdjustSetsFlags(mode: Mode, m: Mnemonic, at: word, value: byte, s: State)
    requires IsAdjust(m)
    ensures SetsFlags(AdjustEffect(mode, m, at, value, s), m)
  {
    hide Logic, Wrap, Carry, CarryOut, Shifted, ToA, ToX, ToY, ToMemory, ToOperand, Rotated, Sum, Difference,
         Compared, Pushed, Pulled, Flags, Tested, GroupOf;
    AdjustMembers(m);
    StandsOut(m);
  }

  lemma StackFlagBlind(m: Mnemonic, s: State, f: FlagName, b: bool)
    requires IsStack(m) && !UsesFlag(m, f)
    ensures StackEffect(m, WithFlag(s, f, b)) == StackEffect(m, s)
  {
    hide Logic, Wrap, Carry, CarryOut, Shifted, ToA, ToX, ToY, ToMemory, ToOperand, Rotated, Sum, Difference,
         Compared, Pushed, Pulled, Flags, Tested, GroupOf, IsStack, WithFlag, PackFlags, Top;
    StackMembers(m);
    SameButFlag(s, f, b);
  }

  lemma StackSetsFlags(m: Mnemonic, s: State)
    requires IsStack(m)
    ensures SetsFlags(StackEffect(m, s), m)
  {
    hide Logic, Wrap, Carry, CarryOut, Shifted, ToA, ToX, ToY, ToMemory, ToOperand, Rotated, Sum, Difference,
         Compared, Pushed, Pulled, Flags, Tested, GroupOf, PackFlags, Top;
    StackMembers(m);
    StandsOut(m);
  }

  lemma FlagFlagBlind(m: Mnemonic, s: State, f: FlagName, b: bool)
    requires IsFlag(m) && !UsesFlag(m, f)
    ensures FlagEffect(m, WithFlag(s, f, b)) == FlagEffect(m, s)
  {
    hide Logic, Wrap, Carry, CarryOut, Shifted, ToA, ToX, ToY, ToMemory, ToOperand, Rotated, Sum, Difference,
         Compared, Pushed, Pulled, Flags, Tested, GroupOf, IsFlag, WithFlag;
    FlagMembers(m);
    SameButFlag(s, f, b);
  }

  lemma FlagSetsFlags(m: Mnemonic, s: State)
    requires IsFlag(m)
    ensures SetsFlags(FlagEffect(m, s), m)
  {
    hide Logic, Wrap, Carry, CarryOut, Shifted, ToA, ToX, ToY, ToMemory, ToOperand, Rotated, Sum, Difference,
         Compared, Pushed, Pulled, Flags, Tested, GroupOf;
    FlagMembers(m);
    StandsOut(m);
  }

  lemma AddressFlag(mode: Mode, w: word, s: State, f: FlagName, b: bool)
    ensures Address(mode, w, WithFlag(s, f, b)) == Address(mode, w, s)
      && Fetch(mode, w, WithFlag(s, f, b)) == Fetch(mode, w, s)
  {
    hide WithFlag;
    SameButFlag(s, f, b);
  }

  lemma OtherFlags(m: Mnemonic)
    requires GroupOf(m) == Controls
    ensures SetsFlags(KEEP, m)
  {
    ControlSetsNone(m);
    hide SetsCarry, SetsSign, SetsOverflow, SetsDecimal, SetsInterrupt;
  }

  lemma ControlSetsNone(m: Mnemonic)
    requires GroupOf(m) == Controls
    ensures !SetsCarry(m) && !SetsSign(m) && !SetsOverflow(m) && !SetsDecimal(m) && !SetsInterrupt(m)
  {
    hide GroupOf;
    StandsOut(m);
  }

  /** Apart from the flags it uses, an instruction is blind to flags, and it sets exactly those listed. */
  lemma EffectFlags(op: Op, at: word, value: byte, s: State, f: FlagName, b: bool)
    ensures !UsesFlag(op.mnemonic, f) ==> Effect(op, at, value, WithFlag(s, f, b)) == Effect(op, at, value, s)
    ensures FlagField(Effect(op, at, value, s), f).Some? <==> SetsFlag(op.mnemonic, f)
  {
    hide GroupOf, WithFlag, SetsFlag, SetsFlags, UsesFlag, IsMove, IsTransfer, IsLogical, IsCompare,
         IsArithmetic, IsCount, IsRotate, IsAdjust, IsStack, IsFlag, MoveEffect, TransferEffect, LogicalEffect,
         CompareEffect, ArithmeticEffect, CountEffect, RotateEffect, AdjustEffect, StackEffect, FlagEffect;
    var m, mode := op.mnemonic, op.mode;
    if IsMove(m) {
      MoveSetsFlags(m, at, value, s);
      if !UsesFlag(m, f) { MoveFlagBlind(m, at, value, s, f, b); }
    } else if IsTransfer(m) {
      TransferSetsFlags(m, s);
      if !UsesFlag(m, f) { TransferFlagBlind(m, s, f, b); }
    } else if IsLogical(m) {
      LogicalSetsFlags(m, value, s);
      if !UsesFlag(m, f) { LogicalFlagBlind(m, value, s, f, b); }
    } else if IsCompare(m) {
      CompareSetsFlags(m, value, s);
      if !UsesFlag(m, f) { CompareFlagBlind(m, value, s, f, b); }
    } else if IsArithmetic(m) {
      ArithmeticSetsFlags(m, value, s);
      if !UsesFlag(m, f) { ArithmeticFlagBlind(m, value, s, f, b); }
    } else if IsCount(m) {
      CountSetsFlags(m, s);
      if !UsesFlag(m, f) { CountFlagBlind(m, s, f, b); }
    } else if IsRotate(m) {
      RotateSetsFlags(mode, m, at, value, s);
      if !UsesFlag(m, f) { RotateFlagBlind(mode, m, at, value, s, f, b); }
    } else if IsAdjust(m) {
      AdjustSetsFlags(mode, m, at, value, s);
      if !UsesFlag(m, f) { AdjustFlagBlind(mode, m, at, value, s, f, b); }
    } else if IsStack(m) {
      StackSetsFlags(m, s);
      if !UsesFlag(m, f) { StackFlagBlind(m, s, f, b); }
    } else if IsFlag(m) {
      FlagSetsFlags(m, s);
      if !UsesFlag(m, f) { FlagFlagBlind(m, s, f, b); }
    } else {
      LastGroup(m);
      OtherFlags(m);
    }
    FieldSet(Effect(op, at, value, s), m, f);
  }

  lemma AppliedCarry(s: State, h: Change, b: bool)
    ensures Applied(s.(c := b), h) == if h.c.Some? then Applied(s, h) else Applied(s, h).(c := b)
  {
    hide Else, Stored;
    ElseIs(h.c, b, s.c);
  }

  lemma AppliedZero(s: State, h: Change, b: bool)
    ensures Applied(s.(z := b), h) == if h.z.Some? then Applied(s, h) else Applied(s, h).(z := b)
  {
    hide Else, Stored;
    ElseIs(h.z, b, s.z);
  }

  lemma AppliedNegative(s: State, h: Change, b: bool)
    ensures Applied(s.(n := b), h) == if h.n.Some? then Applied(s, h) else Applied(s, h).(n := b)
  {
    hide Else, Stored;
    ElseIs(h.n, b, s.n);
  }

  lemma AppliedOverflow(s: State, h: Change, b: bool)
    ensures Applied(s.(v := b), h) == if h.v.Some? then Applied(s, h) else Applied(s, h).(v := b)
  {
    hide Else, Stored;
    ElseIs(h.v, b, s.v);
  }

  lemma AppliedDecimal(s: State, h: Change, b: bool)
    ensures Applied(s.(d := b), h) == if h.d.Some? then Applied(s, h) else Applied(s, h).(d := b)
  {
    hide Else, Stored;
    ElseIs(h.d, b, s.d);
  }

  lemma AppliedInterrupt(s: State, h: Change, b: bool)
    ensures Applied(s.(i := b), h) == if h.i.Some? then Applied(s, h) else Applied(s, h).(i := b)
  {
    hide Else, Stored;
    ElseIs(h.i, b, s.i);
  }

  lemma AppliedFlag(s: State, h: Change, f: FlagName, b: bool)
    ensures Applied(WithFlag(s, f, b), h)
      == if FlagField(h, f).Some? then Applied(s, h) else WithFlag(Applied(s, h), f, b)
  {
    hide Applied;
    match f
    case FC => AppliedCarry(s, h, b);
    case FZ => AppliedZero(s, h, b);
    case FN => AppliedNegative(s, h, b);
    case FV => AppliedOverflow(s, h, b);
    case FD => AppliedDecimal(s, h, b);
    case FI => AppliedInterrupt(s, h, b);
  }

  /** A flag that an instruction does not use is replaced if the instruction sets it, and otherwise passes through. */
  lemma FlagsOneByOne(op: Op, w: word, s: State, f: FlagName, b: bool)
    requires !UsesFlag(op.mnemonic, f)
    ensures Exec(op, w, WithFlag(s, f, b))
      == if SetsFlag(op.mnemonic, f) then Exec(op, w, s) else WithFlag(Exec(op, w, s), f, b)
  {
    hide Exec, Address, Fetch, Effect, Applied, WithFlag, SetsFlag, UsesFlag;
    ExecApplies(op, w, s);
    ExecApplies(op, w, WithFlag(s, f, b));
    AddressFlag(op.mode, w, s, f, b);
    EffectFlags(op, Address(op.mode, w, s), Fetch(op.mode, w, s), s, f, b);
    AppliedFlag(s, EffectOf(op, w, s), f, b);
  }

  /** A flag that an instruction does not set is kept. */
  lemma FlagKept(op: Op, w: word, s: State, f: FlagName)
    requires !SetsFlag(op.mnemonic, f)
    ensures FlagOf(Exec(op, w, s), f) == FlagOf(s, f)
  {
    hide Exec, Address, Fetch, Effect, SetsFlag, Stored;
    ExecApplies(op, w, s);
    EffectFlags(op, Address(op.mode, w, s), Fetch(op.mode, w, s), s, f, false);
  }

  ghost predicate FlagsReplaced(op: Op, w: word, s: State) {
    forall f, b, g :: FlagOf(Exec(op, w, WithFlag(s, f, b)), g) == FlagOf(Exec(op, w, s), g)
  }

  /** The flags after an instruction do not depend on those before it if and only if the instruction is PLP. */
  lemma FlagsReplacedExactly(op: Op, w: word, s: State)
    ensures FlagsReplaced(op, w, s) <==> op.mnemonic.PLP?
  {
    hide Exec, WithFlag, FlagOf;
    if op.mnemonic.PLP? {
      forall f, b { FlagsOneByOne(op, w, s, f, b); }
    } else {
      var f := if op.mnemonic.CLI? || op.mnemonic.SEI? then FD else FI;
      var b := !FlagOf(s, f);
      FlagKept(op, w, s, f);
      FlagKept(op, w, WithFlag(s, f, b), f);
      FlagRead(s, f, b);
      assert FlagOf(Exec(op, w, WithFlag(s, f, b)), f) != FlagOf(Exec(op, w, s), f);
    }
  }

  lemma FlagRead(s: State, f: FlagName, b: bool)
    ensures FlagOf(WithFlag(s, f, b), f) == b
  {
  }

  lemma SignInTable(op: Op)
    ensures SetsSign(op.mnemonic) ==> Flow.Has(Flow.Writes(op), Flow.RFlags)
  {
  }

  lemma CarryInTable(op: Op)
    ensures SetsCarry(op.mnemonic) ==> Flow.Has(Flow.Writes(op), Flow.RFlags)
  {
  }

  lemma OthersInTable(op: Op)
    ensures SetsOverflow(op.mnemonic) || SetsDecimal(op.mnemonic) || SetsInterrupt(op.mnemonic) ==>
      Flow.Has(Flow.Writes(op), Flow.RFlags)
  {
  }

  lemma TableHasNoMore(op: Op)
    requires !op.mnemonic.JSR? && !op.mnemonic.RTI? && Flow.Has(Flow.Writes(op), Flow.RFlags)
    ensures var m := op.mnemonic; SetsCarry(m) || SetsSign(m) || SetsOverflow(m) || SetsDecimal(m) || SetsInterrupt(m)
  {
  }

  lemma SomeFlag(m: Mnemonic)
    ensures (exists f :: SetsFlag(m, f)) <==>
      SetsCarry(m) || SetsSign(m) || SetsOverflow(m) || SetsDecimal(m) || SetsInterrupt(m)
  {
    hide SetsCarry, SetsSign, SetsOverflow, SetsDecimal, SetsInterrupt;
    assert SetsFlag(m, FC) <==> SetsCarry(m);
    assert SetsFlag(m, FZ) <==> SetsSign(m);
    assert SetsFlag(m, FV) <==> SetsOverflow(m);
    assert SetsFlag(m, FD) <==> SetsDecimal(m);
    assert SetsFlag(m, FI) <==> SetsInterrupt(m);
  }

  /** What the table says of the flags as one: that some flag is set. */
  lemma WritesSomeFlag(op: Op)
    requires !op.mnemonic.JSR? && !op.mnemonic.RTI?
    ensures Flow.Has(Flow.Writes(op), Flow.RFlags) <==> exists f :: SetsFlag(op.mnemonic, f)
  {
    hide SetsFlag, SetsCarry, SetsSign, SetsOverflow, SetsDecimal, SetsInterrupt, Flow.Writes;
    var m := op.mnemonic;
    SomeFlag(m);
    SignInTable(op);
    CarryInTable(op);
    OthersInTable(op);
    if Flow.Has(Flow.Writes(op), Flow.RFlags) { TableHasNoMore(op); }
  }

  /** All flags count as one register: CLC counts as defining what BEQ reads, but leaves Z as it came. */
  lemma FlagsAreOne(w: word, s: State)
    ensures Flow.Has(Flow.Writes(Op(CLC, Implied)), Flow.RFlags) && Flow.Has(Flow.Reads(Op(BEQ, Relative)), Flow.RFlags)
    ensures Taken(BEQ, Exec(Op(CLC, Implied), w, s)) <==> Taken(BEQ, s)
  {
    hide Exec;
    FlagKept(Op(CLC, Implied), w, s, FZ);
  }
}
