/** What an operand is reported to be used for, against what the instruction does to the cell it names. */
module AsmUse {
  import opened Isa
  import opened Wrappers
  import Cpu
  import opened CpuChange
  import opened Assembler

  /** The operand is the address of a cell, or the base address of an indexed one. */
  predicate NamesCell(mode: Mode) { mode in {ZeroPage, ZeroPageX, ZeroPageY, Absolute, AbsoluteX, AbsoluteY} }

  predicate Reading(u: Use) { u == Read || u == IndexedRead }

  predicate Writing(u: Use) { u == Write || u == IndexedWrite }

  predicate Changing(u: Use) { u == ReadWrite || u == IndexedReadWrite }

  predicate ByIndex(u: Use) { u == IndexedRead || u == IndexedWrite || u == IndexedReadWrite }

  /** A register is stored and nothing else happens. */
  ghost predicate Stores(s: Cpu.State, at: Cpu.word, after: Cpu.State) {
    after == Cpu.StoreAt(s, at, s.a) || after == Cpu.StoreAt(s, at, s.x) || after == Cpu.StoreAt(s, at, s.y)
  }

  /** The cell gets a new value, and the flags tell of that value. */
  ghost predicate Modifies(s: Cpu.State, at: Cpu.word, after: Cpu.State) {
    && after.mem == s.mem[at := after.mem[at]]
    && after.z == (after.mem[at] == 0) && after.n == (after.mem[at] >= 128)
    && after.a == s.a && after.x == s.x && after.y == s.y && after.sp == s.sp
  }

  /** The instruction stores its operand's cell only, and reads it unless it only stores. */
  ghost predicate Touches(u: Use, at: Cpu.word, s: Cpu.State, h: Change) {
    && (Reading(u) ==> h.store.None?)
    && (Writing(u) ==> h == ToMemory(at, s.a) || h == ToMemory(at, s.x) || h == ToMemory(at, s.y))
    && (Changing(u) ==> exists v: byte, c: Option<bool> :: h == NZ(ToMemory(at, v), v).(c := c))
  }

  lemma MoveUse(m: Mnemonic, mode: Mode)
    requires Cpu.IsMove(m) && NamesCell(mode)
    ensures if m.STA? || m.STX? || m.STY? then Writing(UseOf(m, mode)) else Reading(UseOf(m, mode))
  {
  }

  lemma MoveTouches(m: Mnemonic, mode: Mode, at: Cpu.word, value: byte, s: Cpu.State)
    requires Cpu.IsMove(m) && NamesCell(mode)
    ensures Touches(UseOf(m, mode), at, s, MoveEffect(m, at, value, s))
  {
    hide UseOf;
    MoveUse(m, mode);
  }

  lemma RotateUse(m: Mnemonic, mode: Mode)
    requires (Cpu.IsRotate(m) || Cpu.IsAdjust(m)) && NamesCell(mode)
    ensures Changing(UseOf(m, mode))
  {
  }

  lemma RotateTouches(m: Mnemonic, mode: Mode, at: Cpu.word, value: byte, s: Cpu.State)
    requires Cpu.IsRotate(m) && NamesCell(mode)
    ensures Touches(UseOf(m, mode), at, s, RotateEffect(mode, m, at, value, s))
  {
    hide Cpu.Shifted, Cpu.CarryOut, UseOf;
    RotateUse(m, mode);
    var v, c := Cpu.Shifted(m, value, s.c), Some(Cpu.CarryOut(m, value));
    assert RotateEffect(mode, m, at, value, s) == NZ(ToMemory(at, v), v).(c := c);
  }

  lemma AdjustTouches(m: Mnemonic, mode: Mode, at: Cpu.word, value: byte, s: Cpu.State)
    requires Cpu.IsAdjust(m) && NamesCell(mode)
    ensures Touches(UseOf(m, mode), at, s, AdjustEffect(mode, m, at, value, s))
  {
    hide UseOf;
    RotateUse(m, mode);
    var v := Cpu.Wrap(value + if m.INC? then 1 else 255);
    assert AdjustEffect(mode, m, at, value, s) == NZ(ToMemory(at, v), v).(c := None);
  }

  lemma RestReads(m: Mnemonic, mode: Mode)
    requires NamesCell(mode) && m != JMP && m != JSR && !Cpu.IsMove(m) && !Cpu.IsRotate(m) && !Cpu.IsAdjust(m)
    ensures Reading(UseOf(m, mode))
  {
  }

  lemma RestStoresNothing(op: Op, at: Cpu.word, value: byte, s: Cpu.State)
    requires !Cpu.IsMove(op.mnemonic) && !Cpu.IsRotate(op.mnemonic) && !Cpu.IsAdjust(op.mnemonic)
      && !Cpu.IsStack(op.mnemonic)
    ensures Effect(op, at, value, s).store.None?
  {
    hide Effect, TransferEffect, LogicalEffect, CompareEffect, ArithmeticEffect, CountEffect, FlagEffect, Cpu.GroupOf;
    EffectByGroup(op, at, value, s);
    var m := op.mnemonic;
    match Cpu.GroupOf(m)
    case Transfers | Counts => RegistersStoreNothing(m, s);
    case Logicals => LogicalStoresNothing(m, value, s);
    case Compares | Sums => ArithmeticStoresNothing(m, value, s);
    case FlagSets => FlagsStoreNothing(m, s);
    case _ =>
  }

  lemma RegistersStoreNothing(m: Mnemonic, s: Cpu.State)
    ensures TransferEffect(m, s).store.None? && CountEffect(m, s).store.None?
  {
    hide Cpu.Wrap;
  }

  lemma LogicalStoresNothing(m: Mnemonic, value: byte, s: Cpu.State)
    ensures LogicalEffect(m, value, s).store.None?
  {
    hide Cpu.Logic;
  }

  lemma ArithmeticStoresNothing(m: Mnemonic, value: byte, s: Cpu.State)
    ensures CompareEffect(m, value, s).store.None? && ArithmeticEffect(m, value, s).store.None?
  {
    hide Cpu.Wrap, Cpu.Carry;
  }

  lemma FlagsStoreNothing(m: Mnemonic, s: Cpu.State)
    ensures FlagEffect(m, s).store.None?
  {
  }

  lemma StacksImplied(op: Op)
    requires Sensible(op) && NamesCell(op.mode)
    ensures !Cpu.IsStack(op.mnemonic)
  {
  }

  lemma OperandTouched(op: Op, at: Cpu.word, value: byte, s: Cpu.State)
    requires Sensible(op) && NamesCell(op.mode) && op.mnemonic != JMP && op.mnemonic != JSR
    ensures Touches(UseOf(op.mnemonic, op.mode), at, s, Effect(op, at, value, s))
  {
    hide Effect, UseOf, Cpu.GroupOf, MoveEffect, RotateEffect, AdjustEffect, Sensible;
    EffectByGroup(op, at, value, s);
    if Cpu.IsMove(op.mnemonic) { MoveTouches(op.mnemonic, op.mode, at, value, s); }
    else if Cpu.IsRotate(op.mnemonic) { RotateTouches(op.mnemonic, op.mode, at, value, s); }
    else if Cpu.IsAdjust(op.mnemonic) { AdjustTouches(op.mnemonic, op.mode, at, value, s); }
    else {
      StacksImplied(op);
      RestReads(op.mnemonic, op.mode);
      RestStoresNothing(op, at, value, s);
    }
  }

  lemma ModifiedState(at: Cpu.word, s: Cpu.State, v: byte, c: Option<bool>)
    ensures Modifies(s, at, Applied(s, NZ(ToMemory(at, v), v).(c := c)))
  {
  }

  lemma StoredState(at: Cpu.word, s: Cpu.State, v: byte)
    ensures Applied(s, ToMemory(at, v)) == Cpu.StoreAt(s, at, v)
  {
  }

  lemma TouchedState(u: Use, at: Cpu.word, s: Cpu.State, h: Change)
    requires Touches(u, at, s, h)
    ensures Reading(u) ==> Applied(s, h).mem == s.mem
    ensures Writing(u) ==> Stores(s, at, Applied(s, h))
    ensures Changing(u) ==> Modifies(s, at, Applied(s, h))
  {
    hide Modifies, Cpu.StoreAt, ToMemory, NZ;
    if Writing(u) {
      hide Applied;
      StoredState(at, s, s.a);
      StoredState(at, s, s.x);
      StoredState(at, s, s.y);
    }
    if Changing(u) {
      hide Applied;
      var v: byte, c: Option<bool> :| h == NZ(ToMemory(at, v), v).(c := c);
      ModifiedState(at, s, v, c);
    }
  }

  lemma OneUse(m: Mnemonic, mode: Mode)
    requires NamesCell(mode) && m != JMP && m != JSR
    ensures var u := UseOf(m, mode);
      && (Reading(u) || Writing(u) || Changing(u))
      && (ByIndex(u) <==> mode in {ZeroPageX, ZeroPageY, AbsoluteX, AbsoluteY})
  {
  }

  /** What the operand of a data instruction is used for is what the instruction does with the cell in any state. */
  lemma UseIsEffect(op: Op, w: Cpu.word, s: Cpu.State)
    requires Sensible(op) && NamesCell(op.mode) && op.mnemonic != JMP && op.mnemonic != JSR
    ensures var u, at, after := UseOf(op.mnemonic, op.mode), Cpu.Address(op.mode, w, s), Cpu.Exec(op, w, s);
      && (Reading(u) || Writing(u) || Changing(u))
      && (Reading(u) ==> after.mem == s.mem)
      && (Writing(u) ==> Stores(s, at, after))
      && (Changing(u) ==> Modifies(s, at, after))
      && (!ByIndex(u) && (Length(op.mode) == 2 ==> w < 256) ==> at == w)
    ensures ByIndex(UseOf(op.mnemonic, op.mode)) ==>
      exists x: byte, y: byte :: Cpu.Address(op.mode, w, s.(x := x, y := y)) != Cpu.Address(op.mode, w, s)
  {
    hide UseOf, Cpu.Exec, Effect, Sensible, Touches, Stores, Modifies, Applied;
    var at, value := Cpu.Address(op.mode, w, s), Cpu.Fetch(op.mode, w, s);
    OneUse(op.mnemonic, op.mode);
    OperandTouched(op, at, value, s);
    ExecApplies(op, w, s);
    TouchedState(UseOf(op.mnemonic, op.mode), at, s, Effect(op, at, value, s));
    if ByIndex(UseOf(op.mnemonic, op.mode)) { IndexMoves(op.mode, w, s); }
  }

  lemma IndexTells(w: Cpu.word, x: byte, y: byte)
    requires x != y
    ensures (w + x) % 256 != (w + y) % 256 && (w + x) % 0x1_0000 != (w + y) % 0x1_0000
  {
  }

  lemma IndexMoves(mode: Mode, w: Cpu.word, s: Cpu.State)
    requires mode in {ZeroPageX, ZeroPageY, AbsoluteX, AbsoluteY}
    ensures exists x: byte, y: byte :: Cpu.Address(mode, w, s.(x := x, y := y)) != Cpu.Address(mode, w, s)
  {
    var x: byte, y: byte := (s.x + 1) % 256, (s.y + 1) % 256;
    IndexTells(w, s.x, x);
    IndexTells(w, s.y, y);
    assert Cpu.Address(mode, w, s.(x := x, y := y)) != Cpu.Address(mode, w, s);
  }

  /** The uses that are not of a cell. */
  lemma OtherUses(op: Op)
    requires Sensible(op)
    ensures UseOf(op.mnemonic, op.mode) == Call <==> op.mnemonic == JSR
    ensures UseOf(op.mnemonic, op.mode) == Control <==> op == Op(JMP, Absolute)
    ensures UseOf(op.mnemonic, op.mode) == PointerRead <==>
      op == Op(JMP, Indirect) || op.mode == IndexedIndirectX || op.mode == IndirectIndexedY
    ensures UseOf(op.mnemonic, op.mode) == Use.Address <==> op.mode == Immediate
    ensures UseOf(op.mnemonic, op.mode) != Constant
  {
    hide UseOf;
    if op.mnemonic == JMP || op.mnemonic == JSR { JumpUse(op); } else { ModeUse(op.mnemonic, op.mode); }
  }

  lemma JumpUse(op: Op)
    requires Sensible(op) && (op.mnemonic == JMP || op.mnemonic == JSR)
    ensures UseOf(op.mnemonic, op.mode) == if op.mnemonic == JSR then Call else if op.mode
      == Indirect then PointerRead else Control
  {
    hide Sensible;
  }

  lemma ModeUse(m: Mnemonic, mode: Mode)
    requires m != JMP && m != JSR
    ensures var u := UseOf(m, mode);
      && (mode == Immediate ==> u == Use.Address)
      && (mode == IndexedIndirectX || mode == IndirectIndexedY ==> u == PointerRead)
      && (mode != Immediate && mode != IndexedIndirectX && mode != IndirectIndexedY ==> Reading(u) || Writing(u) || Changing(u))
  {
  }

  /** A symbol must be in page zero exactly for the short operands that are addresses. */
  lemma ShortAddresses(mode: Mode)
    ensures NeedsZeroPage(mode) <==> Length(mode) == 2 && mode != Immediate && mode != Relative
  {
  }
}
