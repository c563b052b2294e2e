/** The effect of an instruction as a change of some registers, flags and a memory cell. */
module CpuChange {
  import opened Wrappers
  import opened Bits
  import opened Isa
  import opened Cpu

  // ----- an instruction as a change of some cells -----

  /** The registers, flags and memory cell an instruction sets, and to what. */
  datatype Change = Change(
    a: Option<byte>, x: Option<byte>, y: Option<byte>, sp: Option<byte>,
    c: Option<bool>, z: Option<bool>, n: Option<bool>, v: Option<bool>, d: Option<bool>, i: Option<bool>,
    store: Option<(word, byte)>)

  const KEEP: Change := Change(None, None, None, None, None, None, None, None, None, None, None)

  function Else<T>(o: Option<T>, old_: T): T { if o.Some? then o.value else old_ }

  function Applied(s: State, h: Change): State {
    State(Else(h.a, s.a), Else(h.x, s.x), Else(h.y, s.y), Else(h.sp, s.sp),
          Else(h.c, s.c), Else(h.z, s.z), Else(h.n, s.n), Else(h.v, s.v), Else(h.d, s.d), Else(h.i, s.i),
          Stored(s.mem, h.store))
  }

  function Stored(m: Memory, store: Option<(word, byte)>): Memory {
    if store.Some? then m[store.value.0 := store.value.1] else m
  }

  lemma ElseIs<T>(o: Option<T>, p: T, q: T)
    ensures if o.Some? then Else(o, p) == Else(o, q) else Else(o, p) == p
  {
  }

  /** Which registers and flags a change sets: Z and N go together, and so do D and I where both are meant. */
  predicate Sets(h: Change, a: bool, x: bool, y: bool, c: bool, zn: bool, v: bool, di: bool) {
    && h.a.Some? == a && h.x.Some? == x && h.y.Some? == y && h.c.Some? == c
    && h.z.Some? == zn && h.n.Some? == zn && h.v.Some? == v && h.d.Some? == di && h.i.Some? == di
  }

  function NZ(h: Change, value: byte): Change { h.(z := Some(value == 0), n := Some(value >= 128)) }

  function ToA(value: byte): (h: Change)
    ensures Sets(h, true, false, false, false, true, false, false)
  {
    NZ(KEEP.(a := Some(value)), value)
  }

  function ToX(value: byte): (h: Change)
    ensures Sets(h, false, true, false, false, true, false, false)
  {
    NZ(KEEP.(x := Some(value)), value)
  }

  function ToY(value: byte): (h: Change)
    ensures Sets(h, false, false, true, false, true, false, false)
  {
    NZ(KEEP.(y := Some(value)), value)
  }

  function ToMemory(at: word, value: byte): (h: Change)
    ensures Sets(h, false, false, false, false, false, false, false)
  {
    KEEP.(store := Some((at, value)))
  }

  /** Back to where the operand came from. */
  function ToOperand(mode: Mode, at: word, value: byte): (h: Change)
    ensures Sets(h, mode == Accumulator, false, false, false, true, false, false)
  {
    if mode == Accumulator then ToA(value) else NZ(ToMemory(at, value), value)
  }

  /** The same, with a carry. */
  function Rotated(mode: Mode, at: word, value: byte, c: bool): (h: Change)
    ensures Sets(h, mode == Accumulator, false, false, true, true, false, false)
  {
    ToOperand(mode, at, value).(c := Some(c))
  }

  function Sum(a: byte, value: byte, c: bool): (h: Change)
    ensures Sets(h, true, false, false, true, true, true, false)
  {
    var sum := a + value + Carry(c);
    var r := Wrap(sum);
    ToA(r).(c := Some(sum > 255), v := Some((a >= 128) == (value >= 128) && (r >= 128) != (a >= 128)))
  }

  function Difference(a: byte, value: byte, c: bool): (h: Change)
    ensures Sets(h, true, false, false, true, true, true, false)
  {
    var difference := a - value - Carry(!c);
    var r := if difference < 0 then difference + 256 else difference;
    ToA(r).(c := Some(difference >= 0), v := Some((a >= 128) != (value >= 128) && (r >= 128) != (a >= 128)))
  }

  function Compared(register: byte, value: byte): (h: Change)
    ensures Sets(h, false, false, false, true, true, false, false)
  {
    NZ(KEEP.(c := Some(register >= value)), if register >= value then register - value else register - value + 256)
  }

  function Pushed(sp: byte, value: byte): (h: Change)
    ensures Sets(h, false, false, false, false, false, false, false)
  {
    ToMemory(0x100 + sp, value).(sp := Some(if sp == 0 then 255 else sp - 1))
  }

  function Pulled(sp: byte, value: byte): (h: Change)
    ensures Sets(h, true, false, false, false, true, false, false)
  {
    ToA(value).(sp := Some((sp + 1) % 256))
  }

  function Flags(sp: byte, p: byte): (h: Change)
    ensures Sets(h, false, false, false, true, true, true, true)
  {
    KEEP.(n := Some(p / 128 % 2 == 1), v := Some(p / 64 % 2 == 1), d := Some(p / 8 % 2 == 1),
          i := Some(p / 4 % 2 == 1), z := Some(p / 2 % 2 == 1), c := Some(p % 2 == 1), sp := Some((sp + 1) % 256))
  }

  function Tested(a: byte, value: byte): (h: Change)
    ensures Sets(h, false, false, false, false, true, true, false)
  {
    KEEP.(z := Some(Logic(BitAnd, a, value) == 0), n := Some(value >= 128), v := Some(value / 64 % 2 == 1))
  }

  // What an instruction sets, given its operand, the address of it and the state, by groups.

  function MoveEffect(m: Mnemonic, at: word, value: byte, s: State): Change {
    if m.LDA? then ToA(value)
    else if m.LDX? then ToX(value)
    else if m.LDY? then ToY(value)
    else if m.STA? then ToMemory(at, s.a)
    else if m.STX? then ToMemory(at, s.x)
    else ToMemory(at, s.y)
  }

  function TransferEffect(m: Mnemonic, s: State): Change {
    if m.TAX? then ToX(s.a)
    else if m.TAY? then ToY(s.a)
    else if m.TSX? then ToX(s.sp)
    else if m.TXA? then ToA(s.x)
    else if m.TYA? then ToA(s.y)
    else KEEP.(sp := Some(s.x))
  }

  function LogicalEffect(m: Mnemonic, value: byte, s: State): Change {
    if m.AND? then ToA(Logic(BitAnd, s.a, value))
    else if m.ORA? then ToA(Logic(BitOr, s.a, value))
    else if m.EOR? then ToA(Logic(BitXor, s.a, value))
    else Tested(s.a, value)
  }

  function CompareEffect(m: Mnemonic, value: byte, s: State): Change {
    if m.CMP? then Compared(s.a, value)
    else if m.CPX? then Compared(s.x, value)
    else Compared(s.y, value)
  }

  function ArithmeticEffect(m: Mnemonic, value: byte, s: State): Change {
    if m.ADC? then Sum(s.a, value, s.c)
    else Difference(s.a, value, s.c)
  }

  function CountEffect(m: Mnemonic, s: State): Change {
    if m.INX? then ToX(Wrap(s.x + 1))
    else if m.INY? then ToY(Wrap(s.y + 1))
    else if m.DEX? then ToX(Wrap(s.x + 255))
    else ToY(Wrap(s.y + 255))
  }

  function RotateEffect(mode: Mode, m: Mnemonic, at: word, value: byte, s: State): Change {
    Rotated(mode, at, Shifted(m, value, s.c), CarryOut(m, value))
  }

  function AdjustEffect(mode: Mode, m: Mnemonic, at: word, value: byte, s: State): Change {
    if m.INC? then ToOperand(mode, at, Wrap(value + 1))
    else ToOperand(mode, at, Wrap(value + 255))
  }

  function StackEffect(m: Mnemonic, s: State): Change {
    if m.PHA? then Pushed(s.sp, s.a)
    else if m.PHP? then Pushed(s.sp, PackFlags(s))
    else if m.PLA? then Pulled(s.sp, Top(s))
    else Flags(s.sp, Top(s))
  }

  function FlagEffect(m: Mnemonic, s: State): Change {
    if m.CLC? then KEEP.(c := Some(false))
    else if m.SEC? then KEEP.(c := Some(true))
    else if m.CLD? then KEEP.(d := Some(false))
    else if m.SED? then KEEP.(d := Some(true))
    else if m.CLI? then KEEP.(i := Some(false))
    else if m.SEI? then KEEP.(i := Some(true))
    else KEEP.(v := Some(false))
  }

  function Effect(op: Op, at: word, value: byte, s: State): Change {
    var m, mode := op.mnemonic, op.mode;
    if IsMove(m) then MoveEffect(m, at, value, s)
    else if IsTransfer(m) then TransferEffect(m, s)
    else if IsLogical(m) then LogicalEffect(m, value, s)
    else if IsCompare(m) then CompareEffect(m, value, s)
    else if IsArithmetic(m) then ArithmeticEffect(m, value, s)
    else if IsCount(m) then CountEffect(m, s)
    else if IsRotate(m) then RotateEffect(mode, m, at, value, s)
    else if IsAdjust(m) then AdjustEffect(mode, m, at, value, s)
    else if IsStack(m) then StackEffect(m, s)
    else if IsFlag(m) then FlagEffect(m, s)
    else KEEP
  }

  lemma EffectByGroup(op: Op, at: word, value: byte, s: State)
    ensures IsMove(op.mnemonic) ==> Effect(op, at, value, s) == MoveEffect(op.mnemonic, at, value, s)
    ensures IsTransfer(op.mnemonic) ==> Effect(op, at, value, s) == TransferEffect(op.mnemonic, s)
    ensures IsLogical(op.mnemonic) ==> Effect(op, at, value, s) == LogicalEffect(op.mnemonic, value, s)
    ensures IsCompare(op.mnemonic) ==> Effect(op, at, value, s) == CompareEffect(op.mnemonic, value, s)
    ensures IsArithmetic(op.mnemonic) ==> Effect(op, at, value, s) == ArithmeticEffect(op.mnemonic, value, s)
    ensures IsCount(op.mnemonic) ==> Effect(op, at, value, s) == CountEffect(op.mnemonic, s)
    ensures IsRotate(op.mnemonic) ==> Effect(op, at, value, s) == RotateEffect(op.mode, op.mnemonic, at, value, s)
    ensures IsAdjust(op.mnemonic) ==> Effect(op, at, value, s) == AdjustEffect(op.mode, op.mnemonic, at, value, s)
    ensures IsStack(op.mnemonic) ==> Effect(op, at, value, s) == StackEffect(op.mnemonic, s)
    ensures IsFlag(op.mnemonic) ==> Effect(op, at, value, s) == FlagEffect(op.mnemonic, s)
    ensures GroupOf(op.mnemonic) == Controls ==> Effect(op, at, value, s) == KEEP
  {
    hide GroupOf, MoveEffect, TransferEffect, LogicalEffect, CompareEffect, ArithmeticEffect, CountEffect, RotateEffect,
         AdjustEffect, StackEffect, FlagEffect;
  }

  function EffectOf(op: Op, w: word, s: State): Change { Effect(op, Address(op.mode, w, s), Fetch(op.mode, w, s), s) }

  // ----- executing an instruction applies its change -----

  lemma SetApplies(s: State, v: byte)
    ensures SetA(s, v) == Applied(s, ToA(v)) && SetX(s, v) == Applied(s, ToX(v)) && SetY(s, v) == Applied(s, ToY(v))
  {
  }

  lemma StoreApplies(s: State, at: word, v: byte)
    ensures StoreAt(s, at, v) == Applied(s, ToMemory(at, v))
  {
  }

  lemma SumApplies(s: State, v: byte)
    ensures Add(s, v) == Applied(s, Sum(s.a, v, s.c)) && Subtract(s, v) == Applied(s, Difference(s.a, v, s.c))
  {
    hide Wrap, Carry;
  }

  lemma CompareApplies(s: State, r: byte, v: byte)
    ensures Compare(s, r, v) == Applied(s, Compared(r, v))
  {
  }

  lemma PushApplies(s: State, v: byte)
    ensures Push(s, v) == Applied(s, Pushed(s.sp, v))
  {
  }

  lemma PullApplies(s: State)
    ensures SetA(Popped(s), Top(s)) == Applied(s, Pulled(s.sp, Top(s)))
        && UnpackFlags(Popped(s), Top(s)) == Applied(s, Flags(s.sp, Top(s)))
  {
    hide Top;
  }

  lemma PutBackApplies(mode: Mode, w: word, s: State, v: byte)
    ensures PutBack(mode, w, s, v) == Applied(s, ToOperand(mode, Address(mode, w, s), v))
  {
    hide Address;
  }

  lemma RotateApplies(mode: Mode, w: word, s: State, v: byte, c: bool)
    ensures PutBack(mode, w, s.(c := c), v) == Applied(s, Rotated(mode, Address(mode, w, s), v, c))
  {
    hide Address, PutBack, Applied, ToOperand;
    AddressCarry(mode, w, s, c);
    PutBackApplies(mode, w, s.(c := c), v);
    CarryLater(s, ToOperand(mode, Address(mode, w, s), v), c);
  }

  lemma CarryLater(s: State, h: Change, b: bool)
    requires h.c.None?
    ensures Applied(s.(c := b), h) == Applied(s, h.(c := Some(b)))
  {
    hide Stored;
  }

  lemma CarryApplies(s: State, b: bool)
    ensures s.(c := b) == Applied(s, KEEP.(c := Some(b)))
  {
  }

  lemma DecimalApplies(s: State, b: bool)
    ensures s.(d := b) == Applied(s, KEEP.(d := Some(b)))
  {
  }

  lemma InterruptApplies(s: State, b: bool)
    ensures s.(i := b) == Applied(s, KEEP.(i := Some(b)))
  {
  }

  lemma OverflowApplies(s: State, b: bool)
    ensures s.(v := b) == Applied(s, KEEP.(v := Some(b)))
  {
  }

  lemma PointerApplies(s: State)
    ensures s == Applied(s, KEEP) && s.(sp := s.x) == Applied(s, KEEP.(sp := Some(s.x)))
  {
  }

  lemma TestApplies(s: State, value: byte)
    ensures s.(z := Logic(BitAnd, s.a, value) == 0, n := value >= 128, v := value / 64 % 2 == 1)
      == Applied(s, Tested(s.a, value))
  {
    hide Logic;
  }

  lemma MoveIsApplied(m: Mnemonic, at: word, value: byte, s: State)
    requires IsMove(m)
    ensures MoveExec(m, at, value, s) == Applied(s, MoveEffect(m, at, value, s))
  {
    hide SetA, SetX, SetY, StoreAt, Add, Subtract, Compare, Push, Popped, UnpackFlags, PutBack, Top, Logic,
         PackFlags, Applied, ToA, ToX, ToY, ToMemory, ToOperand, Rotated, Sum, Difference, Compared, Pushed,
         Pulled, Flags, Tested, IsMove, GroupOf;
    MoveMembers(m);
    if m.LDA? || m.LDX? || m.LDY? { SetApplies(s, value); }
    else if m.STA? { StoreApplies(s, at, s.a); } else if m.STX? { StoreApplies(s, at, s.x); } else { StoreApplies(s, at, s.y); }
  }

  lemma TransferIsApplied(m: Mnemonic, s: State)
    requires IsTransfer(m)
    ensures TransferExec(m, s) == Applied(s, TransferEffect(m, s))
  {
    hide SetA, SetX, SetY, StoreAt, Add, Subtract, Compare, Push, Popped, UnpackFlags, PutBack, Top, Logic,
         PackFlags, Applied, ToA, ToX, ToY, ToMemory, ToOperand, Rotated, Sum, Difference, Compared, Pushed,
         Pulled, Flags, Tested, IsTransfer, GroupOf;
    TransferMembers(m);
    if m.TXS? { PointerApplies(s); }
    else { SetApplies(s, if m.TAX? || m.TAY? then s.a else if m.TSX? then s.sp else if m.TXA? then s.x else s.y); }
  }

  lemma LogicalIsApplied(m: Mnemonic, value: byte, s: State)
    requires IsLogical(m)
    ensures LogicalExec(m, value, s) == Applied(s, LogicalEffect(m, value, s))
  {
    hide SetA, SetX, SetY, StoreAt, Add, Subtract, Compare, Push, Popped, UnpackFlags, PutBack, Top, Logic,
         PackFlags, Applied, ToA, ToX, ToY, ToMemory, ToOperand, Rotated, Sum, Difference, Compared, Pushed,
         Pulled, Flags, Tested, IsLogical, GroupOf;
    LogicalMembers(m);
    SetApplies(s, Logic(if m.AND? then BitAnd else if m.ORA? then BitOr else BitXor, s.a, value));
    TestApplies(s, value);
  }

  lemma CompareIsApplied(m: Mnemonic, value: byte, s: State)
    requires IsCompare(m)
    ensures CompareExec(m, value, s) == Applied(s, CompareEffect(m, value, s))
  {
    hide SetA, SetX, SetY, StoreAt, Add, Subtract, Compare, Push, Popped, UnpackFlags, PutBack, Top, Logic,
         PackFlags, Applied, ToA, ToX, ToY, ToMemory, ToOperand, Rotated, Sum, Difference, Compared, Pushed,
         Pulled, Flags, Tested, IsCompare, GroupOf;
    CompareMembers(m);
    CompareApplies(s, if m.CMP? then s.a else if m.CPX? then s.x else s.y, value);
  }

  lemma ArithmeticIsApplied(m: Mnemonic, value: byte, s: State)
    requires IsArithmetic(m)
    ensures ArithmeticExec(m, value, s) == Applied(s, ArithmeticEffect(m, value, s))
  {
    hide SetA, SetX, SetY, StoreAt, Add, Subtract, Compare, Push, Popped, UnpackFlags, PutBack, Top, Logic,
         PackFlags, Applied, ToA, ToX, ToY, ToMemory, ToOperand, Rotated, Sum, Difference, Compared, Pushed,
         Pulled, Flags, Tested, IsArithmetic, GroupOf;
    ArithmeticMembers(m);
    SumApplies(s, value);
  }

  lemma CountIsApplied(m: Mnemonic, s: State)
    requires IsCount(m)
    ensures CountExec(m, s) == Applied(s, CountEffect(m, s))
  {
    hide SetA, SetX, SetY, StoreAt, Add, Subtract, Compare, Push, Popped, UnpackFlags, PutBack, Top, Logic,
         PackFlags, Applied, ToA, ToX, ToY, ToMemory, ToOperand, Rotated, Sum, Difference, Compared, Pushed,
         Pulled, Flags, Tested, IsCount, GroupOf;
    CountMembers(m);
    SetApplies(s, if m.INX? then Wrap(s.x + 1) else if m.INY? then Wrap(s.y + 1) else if m.DEX? then Wrap(s.x + 255) else Wrap(s.y + 255));
  }

  lemma RotateIsApplied(mode: Mode, m: Mnemonic, w: word, s: State)
    ensures RotateExec(mode, m, w, Fetch(mode, w, s), s)
      == Applied(s, RotateEffect(mode, m, Address(mode, w, s), Fetch(mode, w, s), s))
  {
    hide SetA, SetX, SetY, StoreAt, Add, Subtract, Compare, Push, Popped, UnpackFlags, PutBack, Top, Logic,
         PackFlags, Applied, ToA, ToX, ToY, ToMemory, ToOperand, Rotated, Sum, Difference, Compared, Pushed,
         Pulled, Flags, Tested, Address, Fetch, Wrap, CarryOut, Shifted;
    var x := Fetch(mode, w, s);
    RotateApplies(mode, w, s, Shifted(m, x, s.c), CarryOut(m, x));
  }

  lemma AdjustIsApplied(mode: Mode, m: Mnemonic, w: word, s: State)
    ensures AdjustExec(mode, m, w, Fetch(mode, w, s), s)
      == Applied(s, AdjustEffect(mode, m, Address(mode, w, s), Fetch(mode, w, s), s))
  {
    hide SetA, SetX, SetY, StoreAt, Add, Subtract, Compare, Push, Popped, UnpackFlags, PutBack, Top, Logic,
         PackFlags, Applied, ToA, ToX, ToY, ToMemory, ToOperand, Rotated, Sum, Difference, Compared, Pushed,
         Pulled, Flags, Tested, Address, Fetch, Wrap, CarryOut, Shifted;
    var x: int := Fetch(mode, w, s);
    PutBackApplies(mode, w, s, if m.INC? then Wrap(x + 1) else Wrap(x + 255));
  }

  lemma StackIsApplied(m: Mnemonic, s: State)
    requires IsStack(m)
    ensures StackExec(m, s) == Applied(s, StackEffect(m, s))
  {
    hide SetA, SetX, SetY, StoreAt, Add, Subtract, Compare, Push, Popped, UnpackFlags, PutBack, Top, Logic,
         PackFlags, Applied, ToA, ToX, ToY, ToMemory, ToOperand, Rotated, Sum, Difference, Compared, Pushed,
         Pulled, Flags, Tested, IsStack, GroupOf;
    StackMembers(m);
    PushApplies(s, if m.PHA? then s.a else PackFlags(s));
    PullApplies(s);
  }

  lemma FlagIsApplied(m: Mnemonic, s: State)
    requires IsFlag(m)
    ensures FlagExec(m, s) == Applied(s, FlagEffect(m, s))
  {
    hide SetA, SetX, SetY, StoreAt, Add, Subtract, Compare, Push, Popped, UnpackFlags, PutBack, Top, Logic,
         PackFlags, Applied, ToA, ToX, ToY, ToMemory, ToOperand, Rotated, Sum, Difference, Compared, Pushed,
         Pulled, Flags, Tested, IsFlag, GroupOf;
    FlagMembers(m);
    if m.CLC? || m.SEC? { CarryApplies(s, m.SEC?); }
    else if m.CLD? || m.SED? { DecimalApplies(s, m.SED?); }
    else if m.CLI? || m.SEI? { InterruptApplies(s, m.SEI?); }
    else { OverflowApplies(s, false); }
  }

  /** Executing an instruction applies its change. */
  lemma ExecApplies(op: Op, w: word, s: State)
    ensures Exec(op, w, s) == Applied(s, EffectOf(op, w, s))
  {
    hide Applied, Address, Fetch, IsMove, IsTransfer, IsLogical, IsCompare, IsArithmetic, IsCount, IsRotate,
         IsAdjust, IsStack, IsFlag, MoveExec, TransferExec, LogicalExec, CompareExec, ArithmeticExec, CountExec,
         RotateExec, AdjustExec, StackExec, FlagExec, MoveEffect, TransferEffect, LogicalEffect, CompareEffect,
         ArithmeticEffect, CountEffect, RotateEffect, AdjustEffect, StackEffect, FlagEffect;
    var m, mode, at, value := op.mnemonic, op.mode, Address(op.mode, w, s), Fetch(op.mode, w, s);
    if IsMove(m) { MoveIsApplied(m, at, value, s); }
    else if IsTransfer(m) { TransferIsApplied(m, s); }
    else if IsLogical(m) { LogicalIsApplied(m, value, s); }
    else if IsCompare(m) { CompareIsApplied(m, value, s); }
    else if IsArithmetic(m) { ArithmeticIsApplied(m, value, s); }
    else if IsCount(m) { CountIsApplied(m, s); }
    else if IsRotate(m) { RotateIsApplied(mode, m, w, s); }
    else if IsAdjust(m) { AdjustIsApplied(mode, m, w, s); }
    else if IsStack(m) { StackIsApplied(m, s); }
    else if IsFlag(m) { FlagIsApplied(m, s); }
    else { PointerApplies(s); }
  }

  lemma AddressCarry(mode: Mode, w: word, s: State, c: bool)
    ensures Address(mode, w, s.(c := c)) == Address(mode, w, s)
  {
  }

  // ----- the members of each group -----

  /** The groups of the mnemonics that stand out in theirs. */
  lemma StandsOut(m: Mnemonic)
    ensures m.LDA? || m.LDX? || m.LDY? ==> GroupOf(m) == Moves
    ensures m.TXS? ==> GroupOf(m) == Transfers
    ensures m.BIT? ==> GroupOf(m) == Logicals
    ensures m.PLA? || m.PLP? ==> GroupOf(m) == Stacks
    ensures m.CLC? || m.SEC? || m.CLD? || m.SED? || m.CLI? || m.SEI? || m.CLV? ==> GroupOf(m) == FlagSets
  {
  }

  lemma MoveMembers(m: Mnemonic)
    requires IsMove(m)
    ensures m.LDA? || m.LDX? || m.LDY? || m.STA? || m.STX? || m.STY?
  {
  }

  lemma TransferMembers(m: Mnemonic)
    requires IsTransfer(m)
    ensures m.TAX? || m.TAY? || m.TSX? || m.TXA? || m.TYA? || m.TXS?
  {
  }

  lemma LogicalMembers(m: Mnemonic)
    requires IsLogical(m)
    ensures m.AND? || m.ORA? || m.EOR? || m.BIT?
  {
  }

  lemma CompareMembers(m: Mnemonic)
    requires IsCompare(m)
    ensures m.CMP? || m.CPX? || m.CPY?
  {
  }

  lemma ArithmeticMembers(m: Mnemonic)
    requires IsArithmetic(m)
    ensures m.ADC? || m.SBC?
  {
  }

  lemma CountMembers(m: Mnemonic)
    requires IsCount(m)
    ensures m.INX? || m.INY? || m.DEX? || m.DEY?
  {
  }

  lemma RotateMembers(m: Mnemonic)
    requires IsRotate(m)
    ensures m.ASL? || m.ROL? || m.LSR? || m.ROR?
  {
  }

  lemma AdjustMembers(m: Mnemonic)
    requires IsAdjust(m)
    ensures m.INC? || m.DEC?
  {
  }

  lemma StackMembers(m: Mnemonic)
    requires IsStack(m)
    ensures m.PHA? || m.PHP? || m.PLA? || m.PLP?
  {
  }

  lemma FlagMembers(m: Mnemonic)
    requires IsFlag(m)
    ensures m.CLC? || m.SEC? || m.CLD? || m.SED? || m.CLI? || m.SEI? || m.CLV?
  {
  }

  lemma ControlMembers(m: Mnemonic)
    requires GroupOf(m) == Controls
    ensures m.BCC? || m.BCS? || m.BEQ? || m.BMI? || m.BNE? || m.BPL? || m.BVC? || m.BVS? || m.BRK? || m.JMP?
         || m.JSR? || m.NOP? || m.RTI? || m.RTS?
  {
  }

  lemma LastGroup(m: Mnemonic)
    requires !IsMove(m) && !IsTransfer(m) && !IsLogical(m) && !IsCompare(m) && !IsArithmetic(m)
    requires !IsCount(m) && !IsRotate(m) && !IsAdjust(m) && !IsStack(m) && !IsFlag(m)
    ensures GroupOf(m) == Controls
  {
    hide GroupOf;
  }
}
