/** The compiler-owned division routines: the 6502 text they are built from and what running it computes. */
module Division {
  import opened Bits
  import opened Isa
  import opened Cpu
  import R = Restoring

  datatype Name =
    | Nonzero | Fault | PositiveLeft | PositiveRight | DivideLoop | SubtractAt | Next | RemainderReady | ResultAt

  datatype Line =
    | Label(name: Name)
    | Data(op: Op, operand: word)
    | Branch(mnemonic: Mnemonic, to: Name)
    | CallError

  const DIVISION_BY_ZERO: byte := 101

  function Imm(m: Mnemonic, value: byte): Line { Data(Op(m, Immediate), value) }

  function Zp(m: Mnemonic, cell: byte): Line { Data(Op(m, ZeroPage), cell) }

  function Bare(m: Mnemonic): Line { Data(Op(m, Implied), 0) }

  // ----- the text the builders produce -----

  function FaultLines(code: byte): seq<Line> {
    [Imm(LDY, code), Bare(TYA), Imm(LDX, 0), CallError, Bare(CLD), Imm(LDY, code), Bare(TYA), Bare(SEC),
     Label(Fault), Branch(BCS, Fault)]
  }

  function NegateWord(low: byte): seq<Line>
    requires low < 255
  {
    [Bare(SEC), Imm(LDA, 0), Zp(SBC, low), Zp(STA, low), Imm(LDA, 0), Zp(SBC, low + 1), Zp(STA, low + 1)]
  }

  function Prologue(): seq<Line> {
    [Bare(CLD), Zp(STA, 0x82), Zp(STX, 0x83), Zp(LDA, 0x84), Zp(ORA, 0x85), Branch(BNE, Nonzero)]
  }

  function LoopSetup(): seq<Line> {
    [Imm(LDA, 0), Zp(STA, 0x86), Zp(STA, 0x87), Imm(LDX, 16)]
  }

  function LoopLines(): seq<Line> {
    [Label(DivideLoop), Zp(ASL, 0x82), Zp(ROL, 0x83), Zp(ROL, 0x86), Zp(ROL, 0x87), Branch(BCS, SubtractAt),
     Zp(LDA, 0x87), Zp(CMP, 0x85), Branch(BCC, Next), Branch(BNE, SubtractAt), Zp(LDA, 0x86), Zp(CMP, 0x84), Branch(BCC, Next),
     Label(SubtractAt), Bare(SEC), Zp(LDA, 0x86), Zp(SBC, 0x84), Zp(STA, 0x86), Zp(LDA, 0x87), Zp(SBC, 0x85), Zp(STA, 0x87), Zp(INC, 0x82),
     Label(Next), Bare(DEX), Branch(BNE, DivideLoop)]
  }

  /** Negate a word when the sign test before it says so, then go on at `name`. */
  function NegateUnlessPositive(low: byte, name: Name): seq<Line>
    requires low < 255
  {
    [Branch(BPL, name)] + NegateWord(low)
  }

  function SignLines(): seq<Line> {
    [Zp(STX, 0xC2), Bare(TXA), Zp(EOR, 0x85), Zp(STA, 0xC3), Bare(TXA)] + NegateUnlessPositive(0x82, PositiveLeft)
    + [Label(PositiveLeft), Zp(LDA, 0x85)] + NegateUnlessPositive(0x84, PositiveRight) + [Label(PositiveRight)]
  }

  function RemainderSign(): seq<Line> {
    [Zp(LDA, 0xC2)] + NegateUnlessPositive(0x86, RemainderReady) + [Label(RemainderReady)]
  }

  function ResultSign(remainder: bool): seq<Line> {
    [Zp(LDA, if remainder then 0xC2 else 0xC3)] + NegateUnlessPositive(if remainder then 0x86 else 0x82, ResultAt)
  }

  function ResultLines(remainder: bool): seq<Line> {
    var low: byte := if remainder then 0x86 else 0x82;
    [Label(ResultAt), Zp(LDA, low), Zp(LDX, low + 1)]
  }

  /** Text up to the division proper. */
  function Head(): seq<Line> {
    Prologue() + FaultLines(DIVISION_BY_ZERO) + [Label(Nonzero)]
  }

  function Signs(signed: bool): seq<Line> { if signed then SignLines() else [] }

  function Both(signed: bool, both: bool): seq<Line> { if signed && both then RemainderSign() else [] }

  function Fix(signed: bool, remainder: bool): seq<Line> { if signed then ResultSign(remainder) else [] }

  function Body(signed: bool, remainder: bool, both: bool): seq<Line> {
    Head() + Signs(signed) + LoopSetup() + LoopLines() + Both(signed, both) + Fix(signed, remainder) + ResultLines(remainder)
  }

  /** The builder appends its text piece by piece. */
  method DivisionBody(signed: bool, remainder: bool, both: bool) returns (source: seq<Line>)
    ensures source == Body(signed, remainder, both)
  {
    source := Prologue();
    source := source + FaultLines(DIVISION_BY_ZERO);
    source := source + [Label(Nonzero)];
    if signed {
      source := source + SignLines();
    }
    source := source + LoopSetup() + LoopLines();
    if both && signed {
      source := source + RemainderSign();
    }
    if signed {
      source := source + ResultSign(remainder);
    }
    source := source + ResultLines(remainder);
  }

  // ----- running it -----

  datatype Config = Config(pc: nat, cpu: State)

  function Where(code: seq<Line>, name: Name): nat {
    if code == [] then 0
    else if code[0] == Label(name) then 0
    else 1 + Where(code[1..], name)
  }

  /** Decimal arithmetic is not part of the model: it blocks a run, so the routines must clear D first. */
  predicate Blocked(line: Line, s: State) {
    line.Data? && line.op.mnemonic in {ADC, SBC} && s.d
  }

  /** A run stops where control leaves the text: past its end, where the emitter puts RTS, or in the call of Error. */
  function Step(code: seq<Line>, c: Config): Config {
    if c.pc >= |code| || Blocked(code[c.pc], c.cpu) then c
    else match code[c.pc]
      case Label(_) => Config(c.pc + 1, c.cpu)
      case Data(op, operand) => Config(c.pc + 1, Exec(op, operand, c.cpu))
      case Branch(m, to) => Config(if Taken(m, c.cpu) then Where(code, to) else c.pc + 1, c.cpu)
      case CallError => c
  }

  function Steps(code: seq<Line>, c: Config, n: nat): Config {
    if n == 0 then c else Step(code, Steps(code, c, n - 1))
  }

  ghost predicate Reaches(code: seq<Line>, c: Config, c2: Config) {
    exists n :: Steps(code, c, n) == c2
  }

  lemma {:induction false} StepsAdd(code: seq<Line>, c: Config, m: nat, n: nat)
    ensures Steps(code, c, m + n) == Steps(code, Steps(code, c, m), n)
    decreases n
  {
    hide Step;
    if n > 0 {
      StepsAdd(code, c, m, n - 1);
      assert m + n - 1 == m + (n - 1);
    }
  }

  lemma ReachesHere(code: seq<Line>, c: Config)
    ensures Reaches(code, c, c)
  {
    assert Steps(code, c, 0) == c;
  }

  lemma ReachesTrans(code: seq<Line>, a: Config, b: Config, c: Config)
    requires Reaches(code, a, b) && Reaches(code, b, c)
    ensures Reaches(code, a, c)
  {
    var m: nat :| Steps(code, a, m) == b;
    var n: nat :| Steps(code, b, n) == c;
    StepsAdd(code, a, m, n);
  }

  lemma ReachesStep(code: seq<Line>, a: Config, b: Config)
    requires Reaches(code, a, b)
    ensures Reaches(code, a, Step(code, b))
  {
    var m: nat :| Steps(code, a, m) == b;
    assert Steps(code, a, m + 1) == Step(code, b);
  }

  // ----- zero-page words and frames -----

  function Cell(m: Memory, a: byte): int { m[a] }

  function Word(m: Memory, low: byte): (w: nat)
    requires low < 255
    ensures w < 0x10000
  {
    Cell(m, low) + 256 * Cell(m, low + 1)
  }

  ghost predicate Placed(code: seq<Line>, at: nat, piece: seq<Line>) {
    at + |piece| <= |code| && forall j :: 0 <= j < |piece| ==> code[at + j] == piece[j]
  }

  /** Everything but A, flags and the listed cells is as before. */
  ghost predicate Frame(s: State, t: State, cells: set<int>) {
    t.sp == s.sp && t.d == s.d && forall a: int :: 0 <= a < 0x10000 && a !in cells ==> t.mem[a] == s.mem[a]
  }

  function ExecLine(line: Line, s: State): State {
    match line
    case Data(op, operand) => Exec(op, operand, s)
    case _ => s
  }

  /** Straight-line text runs through the listed states. */
  lemma {:induction false} Straight(code: seq<Line>, at: nat, piece: seq<Line>, from: nat, states: seq<State>)
    requires Placed(code, at, piece) && |states| > 0 && from + |states| - 1 <= |piece|
    requires forall j :: from <= j < from + |states| - 1 ==> piece[j].Label? || piece[j].Data?
    requires forall j :: 0 <= j < |states| - 1 ==>
      !Blocked(piece[from + j], states[j]) && states[j + 1] == ExecLine(piece[from + j], states[j])
    ensures Reaches(code, Config(at + from, states[0]), Config(at + from + |states| - 1, states[|states| - 1]))
  {
    hide Exec;
    var n := |states| - 1;
    ReachesHere(code, Config(at + from, states[0]));
    if n > 0 {
      Straight(code, at, piece, from, states[..n]);
      assert code[at + (from + n - 1)] == piece[from + n - 1];
      ReachesStep(code, Config(at + from, states[0]), Config(at + from + n - 1, states[n - 1]));
      assert !Blocked(piece[from + (n - 1)], states[n - 1])
        && states[(n - 1) + 1] == ExecLine(piece[from + (n - 1)], states[n - 1]);
    }
  }

  ghost predicate OnlyCell(s: State, t: State, cell: byte) {
    t.a == s.a && t.x == s.x && t.y == s.y && t.sp == s.sp && t.d == s.d && t.mem == s.mem[cell := t.mem[cell]]
  }

  lemma AslCell(s: State, cell: byte) returns (t: State)
    ensures t == Exec(Op(ASL, ZeroPage), cell, s) && OnlyCell(s, t, cell)
    ensures Cell(t.mem, cell) + 256 * Carry(t.c) == 2 * Cell(s.mem, cell) && t.mem[cell] % 2 == 0
  {
    hide MoveExec, TransferExec, LogicalExec, CompareExec, ArithmeticExec, CountExec, AdjustExec, StackExec, FlagExec;
    t := Exec(Op(ASL, ZeroPage), cell, s);
  }

  lemma RolCell(s: State, cell: byte) returns (t: State)
    ensures t == Exec(Op(ROL, ZeroPage), cell, s) && OnlyCell(s, t, cell)
    ensures Cell(t.mem, cell) + 256 * Carry(t.c) == 2 * Cell(s.mem, cell) + Carry(s.c)
  {
    hide MoveExec, TransferExec, LogicalExec, CompareExec, ArithmeticExec, CountExec, AdjustExec, StackExec, FlagExec;
    t := Exec(Op(ROL, ZeroPage), cell, s);
  }

  /** Four rotations double the 32-bit pair; C is its top bit, the seventeenth bit of the remainder. */
  lemma ShiftEffect(s: State)
    returns (t1: State, t2: State, t3: State, t: State)
    ensures t1 == Exec(Op(ASL, ZeroPage), 0x82, s)
    ensures t2 == Exec(Op(ROL, ZeroPage), 0x83, t1)
    ensures t3 == Exec(Op(ROL, ZeroPage), 0x86, t2)
    ensures t == Exec(Op(ROL, ZeroPage), 0x87, t3)
    ensures t.x == s.x && t.y == s.y && Frame(s, t, {0x82, 0x83, 0x86, 0x87})
    ensures var bit := if s.mem[0x83] >= 128 then 1 else 0;
      && Word(t.mem, 0x82) == 2 * Word(s.mem, 0x82) - 0x10000 * bit
      && t.mem[0x82] % 2 == 0
      && Word(t.mem, 0x86) + (if t.c then 0x10000 else 0) == 2 * Word(s.mem, 0x86) + bit
  {
    hide Exec;
    t1 := AslCell(s, 0x82);
    t2 := RolCell(t1, 0x83);
    t3 := RolCell(t2, 0x86);
    t := RolCell(t3, 0x87);
  }

  // Effects of the zero-page, immediate and implied forms the routines use.

  lemma Lda(s: State, cell: byte)
    ensures Exec(Op(LDA, ZeroPage), cell, s) == SetA(s, s.mem[cell])
  {
    hide TransferExec, LogicalExec, CompareExec, ArithmeticExec, CountExec, RotateExec, AdjustExec, StackExec, FlagExec;
  }

  lemma Ldx(s: State, cell: byte)
    ensures Exec(Op(LDX, ZeroPage), cell, s) == SetX(s, s.mem[cell])
  {
    hide TransferExec, LogicalExec, CompareExec, ArithmeticExec, CountExec, RotateExec, AdjustExec, StackExec, FlagExec;
  }

  lemma Sta(s: State, cell: byte)
    ensures Exec(Op(STA, ZeroPage), cell, s) == s.(mem := s.mem[cell := s.a])
  {
    hide TransferExec, LogicalExec, CompareExec, ArithmeticExec, CountExec, RotateExec, AdjustExec, StackExec, FlagExec;
  }

  lemma Stx(s: State, cell: byte)
    ensures Exec(Op(STX, ZeroPage), cell, s) == s.(mem := s.mem[cell := s.x])
  {
    hide TransferExec, LogicalExec, CompareExec, ArithmeticExec, CountExec, RotateExec, AdjustExec, StackExec, FlagExec;
  }

  lemma Cmp(s: State, cell: byte)
    ensures Exec(Op(CMP, ZeroPage), cell, s) == Compare(s, s.a, s.mem[cell])
  {
    hide MoveExec, TransferExec, LogicalExec, ArithmeticExec, CountExec, RotateExec, AdjustExec, StackExec, FlagExec,
         Compare;
  }

  lemma Sbc(s: State, cell: byte)
    ensures Exec(Op(SBC, ZeroPage), cell, s) == Subtract(s, s.mem[cell])
  {
    hide MoveExec, TransferExec, LogicalExec, CompareExec, CountExec, RotateExec, AdjustExec, StackExec, FlagExec,
         Subtract;
  }

  lemma Ora(s: State, cell: byte)
    ensures Exec(Op(ORA, ZeroPage), cell, s) == SetA(s, Logic(BitOr, s.a, s.mem[cell]))
  {
    hide MoveExec, TransferExec, CompareExec, ArithmeticExec, CountExec, RotateExec, AdjustExec, StackExec, FlagExec,
         Logic, SetA;
  }

  lemma Eor(s: State, cell: byte)
    ensures Exec(Op(EOR, ZeroPage), cell, s) == SetA(s, Logic(BitXor, s.a, s.mem[cell]))
  {
    hide MoveExec, TransferExec, CompareExec, ArithmeticExec, CountExec, RotateExec, AdjustExec, StackExec, FlagExec,
         Logic, SetA;
  }

  lemma Inc(s: State, cell: byte)
    ensures Exec(Op(INC, ZeroPage), cell, s)
      == SetNZ(s.(mem := s.mem[cell := Wrap(Cell(s.mem, cell) + 1)]), Wrap(Cell(s.mem, cell) + 1))
  {
    hide MoveExec, TransferExec, LogicalExec, CompareExec, ArithmeticExec, CountExec, RotateExec, StackExec,
         FlagExec, SetNZ, Wrap;
  }

  lemma LdaImm(s: State, value: byte)
    ensures Exec(Op(LDA, Immediate), value, s) == SetA(s, value)
  {
    hide TransferExec, LogicalExec, CompareExec, ArithmeticExec, CountExec, RotateExec, AdjustExec, StackExec,
         FlagExec, SetA;
  }

  lemma LdxImm(s: State, value: byte)
    ensures Exec(Op(LDX, Immediate), value, s) == SetX(s, value)
  {
    hide TransferExec, LogicalExec, CompareExec, ArithmeticExec, CountExec, RotateExec, AdjustExec, StackExec,
         FlagExec, SetX;
  }

  lemma LdyImm(s: State, value: byte)
    ensures Exec(Op(LDY, Immediate), value, s) == SetY(s, value)
  {
    hide TransferExec, LogicalExec, CompareExec, ArithmeticExec, CountExec, RotateExec, AdjustExec, StackExec,
         FlagExec, SetY;
  }

  lemma LdImm(s: State, value: byte)
    ensures Exec(Op(LDA, Immediate), value, s) == SetA(s, value)
    ensures Exec(Op(LDX, Immediate), value, s) == SetX(s, value)
    ensures Exec(Op(LDY, Immediate), value, s) == SetY(s, value)
  {
    hide Exec;
    LdaImm(s, value);
    LdxImm(s, value);
    LdyImm(s, value);
  }

  lemma Cld(s: State)
    ensures Exec(Op(CLD, Implied), 0, s) == s.(d := false)
  {
    hide MoveExec, TransferExec, LogicalExec, CompareExec, ArithmeticExec, CountExec, RotateExec, AdjustExec, StackExec;
  }

  lemma Sec(s: State)
    ensures Exec(Op(SEC, Implied), 0, s) == s.(c := true)
  {
    hide MoveExec, TransferExec, LogicalExec, CompareExec, ArithmeticExec, CountExec, RotateExec, AdjustExec, StackExec;
  }

  lemma ClearSet(s: State)
    ensures Exec(Op(CLD, Implied), 0, s) == s.(d := false)
    ensures Exec(Op(SEC, Implied), 0, s) == s.(c := true)
  {
    hide Exec;
    Cld(s);
    Sec(s);
  }

  lemma Txa(s: State)
    ensures Exec(Op(TXA, Implied), 0, s) == SetA(s, s.x)
  {
    hide MoveExec, LogicalExec, CompareExec, ArithmeticExec, CountExec, RotateExec, AdjustExec, StackExec, FlagExec,
         SetA, Address, Fetch;
  }

  lemma Tya(s: State)
    ensures Exec(Op(TYA, Implied), 0, s) == SetA(s, s.y)
  {
    hide MoveExec, LogicalExec, CompareExec, ArithmeticExec, CountExec, RotateExec, AdjustExec, StackExec, FlagExec,
         SetA, Address, Fetch;
  }

  lemma Dex(s: State)
    ensures Exec(Op(DEX, Implied), 0, s) == SetX(s, Wrap(s.x + 255))
  {
    hide MoveExec, TransferExec, LogicalExec, CompareExec, ArithmeticExec, RotateExec, AdjustExec, StackExec,
         FlagExec, SetX, Address, Fetch;
  }

  /** The first five lines of the loop. */
  function ShiftLines(): seq<Line> { [Label(DivideLoop), Zp(ASL, 0x82), Zp(ROL, 0x83), Zp(ROL, 0x86), Zp(ROL, 0x87)] }

  lemma ShiftPlaced(code: seq<Line>, at: nat)
    requires Placed(code, at, LoopLines())
    ensures Placed(code, at, ShiftLines())
  {
    var lines := LoopLines();
    forall j | 0 <= j < 5 ensures lines[j] == ShiftLines()[j] { }
    hide LoopLines;
  }

  lemma Shift(code: seq<Line>, at: nat, s: State)
    returns (t: State)
    requires Placed(code, at, LoopLines())
    ensures Reaches(code, Config(at, s), Config(at + 5, t))
    ensures t.x == s.x && t.y == s.y && Frame(s, t, {0x82, 0x83, 0x86, 0x87})
    ensures var bit := if s.mem[0x83] >= 128 then 1 else 0;
      && Word(t.mem, 0x82) == 2 * Word(s.mem, 0x82) - 0x10000 * bit
      && t.mem[0x82] % 2 == 0
      && Word(t.mem, 0x86) + (if t.c then 0x10000 else 0) == 2 * Word(s.mem, 0x86) + bit
  {
    hide Exec, Reaches, Steps, Where, Frame, Word;
    var t1, t2, t3;
    t1, t2, t3, t := ShiftEffect(s);
    ShiftPlaced(code, at);
    hide Placed, LoopLines;
    Straight(code, at, ShiftLines(), 0, [s, s, t1, t2, t3, t]);
  }

  /** Three instructions subtract one byte with borrow: load, SBC `minus`, store in `dest`. */
  lemma ByteDifference(s: State, load: Line, value: byte, minus: byte, dest: byte)
    returns (t1: State, t2: State, t: State)
    requires ExecLine(load, s) == SetA(s, value)
    ensures t1 == ExecLine(load, s) && t2 == ExecLine(Zp(SBC, minus), t1) && t == ExecLine(Zp(STA, dest), t2)
    ensures t.x == s.x && t.y == s.y && t.sp == s.sp && t1.d == s.d && t2.d == s.d && t.d == s.d
      && t.mem == s.mem[dest := t.mem[dest]]
    ensures Cell(t.mem, dest) == value - Cell(s.mem, minus) - Carry(!s.c) + 256 * Carry(!t.c)
  {
    hide Exec;
    t1 := ExecLine(load, s);
    Sbc(t1, minus);
    t2 := ExecLine(Zp(SBC, minus), t1);
    Sta(t2, dest);
    t := ExecLine(Zp(STA, dest), t2);
  }

  /** The subtraction branch takes the divisor off the remainder word and sets the new quotient bit. */
  lemma SubtractEffect(s: State)
    returns (states: seq<State>, t: State, borrow: nat)
    requires s.mem[0x82] % 2 == 0
    requires !s.d
    ensures |states| == 10 && states[0] == s && states[9] == t
    ensures forall j :: 0 <= j < 9 ==> states[j + 1] == ExecLine(LoopLines()[13 + j], states[j])
    ensures forall j :: 0 <= j < 9 ==> !states[j].d
    ensures t.x == s.x && t.y == s.y && Frame(s, t, {0x82, 0x86, 0x87})
    ensures Word(t.mem, 0x82) == Word(s.mem, 0x82) + 1
    ensures Word(t.mem, 0x86) == Word(s.mem, 0x86) - Word(s.mem, 0x84) + 0x10000 * borrow
  {
    hide Exec;
    ClearSet(s);
    var s1, a1, a2, a, b1, b2, b;
    s1 := s.(c := true);
    a1, a2, a, b1, b2, b := WordDifference(s1);
    Inc(b, 0x82);
    t := ExecLine(Zp(INC, 0x82), b);
    states := [s, s, s1, a1, a2, a, b1, b2, b, t];
    borrow := Carry(!b.c);
  }

  lemma WordDifference(s: State)
    returns (a1: State, a2: State, a: State, b1: State, b2: State, b: State)
    requires s.c && !s.d
    ensures a1 == ExecLine(Zp(LDA, 0x86), s) && a2 == ExecLine(Zp(SBC, 0x84), a1) && a == ExecLine(Zp(STA, 0x86), a2)
    ensures b1 == ExecLine(Zp(LDA, 0x87), a) && b2 == ExecLine(Zp(SBC, 0x85), b1) && b == ExecLine(Zp(STA, 0x87), b2)
    ensures !a1.d && !a2.d && !a.d && !b1.d && !b2.d && !b.d
    ensures b.x == s.x && b.y == s.y && b.sp == s.sp && b.mem == s.mem[0x86 := b.mem[0x86]][0x87 := b.mem[0x87]]
    ensures Word(b.mem, 0x86) == Word(s.mem, 0x86) - Word(s.mem, 0x84) + 0x10000 * Carry(!b.c)
  {
    hide Exec;
    Lda(s, 0x86);
    a1, a2, a := ByteDifference(s, Zp(LDA, 0x86), s.mem[0x86], 0x84, 0x86);
    Lda(a, 0x87);
    b1, b2, b := ByteDifference(a, Zp(LDA, 0x87), a.mem[0x87], 0x85, 0x87);
  }

  lemma SubtractRun(code: seq<Line>, at: nat, s: State)
    returns (t: State)
    requires Placed(code, at, LoopLines()) && s.mem[0x82] % 2 == 0
    requires Word(s.mem, 0x84) > 0
    requires !s.d
    ensures Reaches(code, Config(at + 13, s), Config(at + 22, t))
    ensures t.x == s.x && t.y == s.y && Frame(s, t, {0x82, 0x86, 0x87})
    ensures Word(t.mem, 0x82) == Word(s.mem, 0x82) + 1
    ensures exists borrow: nat :: Word(t.mem, 0x86) == Word(s.mem, 0x86) - Word(s.mem, 0x84) + 0x10000 * borrow
  {
    hide Exec, Reaches, Steps, Where;
    var states, borrow;
    states, t, borrow := SubtractEffect(s);
    Straight(code, at, LoopLines(), 13, states);
  }

  /** Labels of the loop resolve to its own lines. */
  ghost predicate LoopLabels(code: seq<Line>, at: nat) {
    Where(code, DivideLoop) == at && Where(code, SubtractAt) == at + 13 && Where(code, Next) == at + 22
  }

  lemma BranchStep(code: seq<Line>, start: Config, at: nat, s: State)
    requires at < |code| && code[at].Branch? && Reaches(code, start, Config(at, s))
    ensures var b := code[at];
      Reaches(code, start, Config(if Taken(b.mnemonic, s) then Where(code, b.to) else at + 1, s))
  {
    hide Taken;
    ReachesStep(code, start, Config(at, s));
  }

  /** Load `a` and compare with `b`, at two consecutive lines. */
  lemma CompareBytes(code: seq<Line>, at: nat, a: byte, b: byte, s: State)
    returns (t: State)
    requires at + 2 <= |code| && code[at] == Zp(LDA, a) && code[at + 1] == Zp(CMP, b)
    ensures Reaches(code, Config(at, s), Config(at + 2, t))
    ensures t.mem == s.mem && t.x == s.x && t.y == s.y && t.sp == s.sp && t.d == s.d
    ensures t.c == (s.mem[a] >= s.mem[b]) && t.z == (s.mem[a] == s.mem[b])
  {
    hide Exec, Reaches, Steps, Where;
    Lda(s, a);
    var s1 := SetA(s, s.mem[a]);
    Cmp(s1, b);
    t := Compare(s1, s1.a, s1.mem[b]);
    Straight(code, at, [Zp(LDA, a), Zp(CMP, b)], 0, [s, s1, t]);
  }

  lemma TakenIs(s: State)
    ensures Taken(BCC, s) == !s.c && Taken(BCS, s) == s.c && Taken(BNE, s) == !s.z && Taken(BPL, s) == !s.n
  {
  }

  /** The remainder with its seventeenth bit, which the last rotation left in the carry. */
  function Wide(s: State): nat { 0x10000 * Carry(s.c) + Word(s.mem, 0x86) }

  lemma ComparisonLines(code: seq<Line>, at: nat)
    requires Placed(code, at, LoopLines())
    ensures at + 12 < |code|
    ensures code[at + 6] == Zp(LDA, 0x87) && code[at + 7] == Zp(CMP, 0x85)
    ensures code[at + 8] == Branch(BCC, Next) && code[at + 9] == Branch(BNE, SubtractAt)
    ensures code[at + 10] == Zp(LDA, 0x86) && code[at + 11] == Zp(CMP, 0x84) && code[at + 12] == Branch(BCC, Next)
  {
    var lines := LoopLines();
    assert code[at + 6] == lines[6] && code[at + 7] == lines[7] && code[at + 8] == lines[8] && code[at + 9] == lines[9];
    assert code[at + 10] == lines[10] && code[at + 11] == lines[11] && code[at + 12] == lines[12];
  }

  lemma WordOrder(m: Memory)
    ensures Word(m, 0x86) >= Word(m, 0x84) <==> m[0x87] > m[0x85] || (m[0x87] == m[0x85] && m[0x86] >= m[0x84])
  {
  }

  /** Without a carry: the two-byte comparison. */
  lemma CompareWords(code: seq<Line>, at: nat, s: State)
    returns (t: State)
    requires Placed(code, at, LoopLines()) && LoopLabels(code, at)
    ensures t.mem == s.mem && t.x == s.x && t.y == s.y && t.sp == s.sp && t.d == s.d
    ensures Reaches(code, Config(at + 6, s), Config(if Word(s.mem, 0x86) >= Word(s.mem, 0x84) then at + 13 else at + 22, t))
  {
    hide Exec, Taken, Reaches, Steps, Where, Word, LoopLines, Placed;
    var start := Config(at + 6, s);
    ComparisonLines(code, at);
    WordOrder(s.mem);
    t := CompareBytes(code, at + 6, 0x87, 0x85, s);
    TakenIs(t);
    BranchStep(code, start, at + 8, t);
    if t.c {
      BranchStep(code, start, at + 9, t);
      if t.z {
        var u := t;
        t := CompareBytes(code, at + 10, 0x86, 0x84, u);
        ReachesTrans(code, start, Config(at + 10, u), Config(at + 12, t));
        TakenIs(t);
        BranchStep(code, start, at + 12, t);
      }
    }
  }

  /** The carry and the comparison send control to the subtraction exactly when it is due. */
  lemma CompareRun(code: seq<Line>, at: nat, s: State)
    returns (t: State)
    requires Placed(code, at, LoopLines()) && LoopLabels(code, at)
    ensures t.mem == s.mem && t.x == s.x && t.y == s.y && t.sp == s.sp && t.d == s.d
    ensures Reaches(code, Config(at + 5, s), Config(if Wide(s) >= Word(s.mem, 0x84) then at + 13 else at + 22, t))
  {
    hide Exec, Taken, Reaches, Steps, Where;
    var start := Config(at + 5, s);
    ReachesHere(code, start);
    assert code[at + 5] == LoopLines()[5];
    TakenIs(s);
    BranchStep(code, start, at + 5, s);
    if s.c {
      t := s;
    } else {
      t := CompareWords(code, at, s);
      ReachesTrans(code, start, Config(at + 6, s),
          Config(if Wide(s) >= Word(s.mem, 0x84) then at + 13 else at + 22, t));
    }
  }

  lemma TopBit(m: Memory, low: byte)
    requires low < 255
    ensures Word(m, low) >= 0x8000 <==> m[low + 1] >= 128
  {
  }

  /** Shift, comparison and, where it is due, subtraction; `s1` is the machine after the shift. */
  lemma PassRun(code: seq<Line>, at: nat, s: State)
    returns (s1: State, t: State, borrow: nat)
    requires Placed(code, at, LoopLines()) && LoopLabels(code, at) && Word(s.mem, 0x84) > 0 && !s.d
    ensures Reaches(code, Config(at, s), Config(at + 22, t))
    ensures t.x == s.x && t.y == s.y && Frame(s, t, {0x82, 0x83, 0x86, 0x87})
    ensures var bit := if s.mem[0x83] >= 128 then 1 else 0;
      Word(s1.mem, 0x82) == 2 * Word(s.mem, 0x82) - 0x10000 * bit && Wide(s1) == 2 * Word(s.mem, 0x86) + bit
    ensures Wide(s1) >= Word(s.mem, 0x84) ==>
      Word(t.mem, 0x82) == Word(s1.mem, 0x82) + 1
        && Word(t.mem, 0x86) == Word(s1.mem, 0x86) - Word(s.mem, 0x84) + 0x10000 * borrow
    ensures Wide(s1) < Word(s.mem, 0x84) ==>
      Word(t.mem, 0x82) == Word(s1.mem, 0x82) && Word(t.mem, 0x86) == Word(s1.mem, 0x86)
    ensures borrow <= 1
  {
    hide Exec, Taken, Reaches, Steps, Where, Word, Placed, LoopLines, LoopLabels;
    var start := Config(at, s);
    s1 := Shift(code, at, s);
    WordKept(s, s1, 0x84);
    var s2 := CompareRun(code, at, s1);
    var due := Wide(s1) >= Word(s1.mem, 0x84);
    ReachesTrans(code, start, Config(at + 5, s1), Config(if due then at + 13 else at + 22, s2));
    t, borrow := s2, 0;
    if due {
      t := SubtractRun(code, at, s2);
      borrow :| Word(t.mem, 0x86) == Word(s2.mem, 0x86) - Word(s2.mem, 0x84) + 0x10000 * borrow;
      ReachesTrans(code, start, Config(at + 13, s2), Config(at + 22, t));
    }
  }

  /** The three parts together are one restoring step on the words in zero page. */
  lemma Pass(code: seq<Line>, at: nat, s: State)
    returns (t: State)
    requires Placed(code, at, LoopLines()) && LoopLabels(code, at)
    requires Word(s.mem, 0x86) < Word(s.mem, 0x84)
    requires !s.d
    ensures Reaches(code, Config(at, s), Config(at + 22, t))
    ensures t.x == s.x && t.y == s.y && Frame(s, t, {0x82, 0x83, 0x86, 0x87})
    ensures (Word(t.mem, 0x86), Word(t.mem, 0x82))
      == R.DivStep(16, 16, Word(s.mem, 0x84), Word(s.mem, 0x86), Word(s.mem, 0x82))
    ensures Word(t.mem, 0x86) < Word(t.mem, 0x84)
  {
    hide Exec, Taken, R.DivStep, Reaches, Steps, Where, Word, Placed, LoopLines, LoopLabels;
    var s1, borrow;
    s1, t, borrow := PassRun(code, at, s);
    WordKept(s, t, 0x84);
    TopBit(s.mem, 0x82);
    Pow2Values();
    hide Pow2, Frame;
    R.IsDivStep(16, 16, Word(s.mem, 0x84), Word(s.mem, 0x86), Word(s.mem, 0x82), Carry(s1.c), Word(s1.mem, 0x86),
                Word(s1.mem, 0x82), Word(t.mem, 0x86), Word(t.mem, 0x82), borrow);
  }

  lemma LoopEnd(code: seq<Line>, at: nat, s: State)
    returns (t: State)
    requires Placed(code, at, LoopLines()) && LoopLabels(code, at) && s.x > 0
    ensures Reaches(code, Config(at + 22, s), Config(if t.x == 0 then at + 25 else at, t))
    ensures t.x == s.x - 1 && t.y == s.y && t.mem == s.mem && t.sp == s.sp && t.d == s.d
  {
    hide Exec, Taken, Reaches, Steps, Where;
    Dex(s);
    t := SetX(s, Wrap(s.x + 255));
    Straight(code, at, LoopLines(), 22, [s, s, t]);
    assert code[at + 24] == LoopLines()[24];
    TakenIs(t);
    BranchStep(code, Config(at + 22, s), at + 24, t);
  }

  lemma Iteration(code: seq<Line>, at: nat, s: State)
    returns (t: State)
    requires Placed(code, at, LoopLines()) && LoopLabels(code, at)
    requires s.x > 0 && Word(s.mem, 0x86) < Word(s.mem, 0x84)
    requires !s.d
    ensures Reaches(code, Config(at, s), Config(if t.x == 0 then at + 25 else at, t))
    ensures t.x == s.x - 1 && t.y == s.y && Frame(s, t, {0x82, 0x83, 0x86, 0x87})
    ensures (Word(t.mem, 0x86), Word(t.mem, 0x82))
      == R.DivStep(16, 16, Word(s.mem, 0x84), Word(s.mem, 0x86), Word(s.mem, 0x82))
    ensures Word(t.mem, 0x86) < Word(t.mem, 0x84)
  {
    hide Exec, Taken, R.DivStep, Reaches, Steps, Where;
    var u := Pass(code, at, s);
    t := LoopEnd(code, at, u);
    ReachesTrans(code, Config(at, s), Config(at + 22, u), Config(if t.x == 0 then at + 25 else at, t));
  }

  /** The loop started with X steps to go leaves remainder and quotient in place. */
  lemma {:induction false} LoopRun(code: seq<Line>, at: nat, s: State)
    returns (t: State)
    requires Placed(code, at, LoopLines()) && LoopLabels(code, at)
    requires s.x > 0 && Word(s.mem, 0x86) < Word(s.mem, 0x84)
    requires !s.d
    ensures Reaches(code, Config(at, s), Config(at + 25, t))
    ensures t.x == 0 && t.y == s.y && Frame(s, t, {0x82, 0x83, 0x86, 0x87})
    ensures (Word(t.mem, 0x86), Word(t.mem, 0x82))
      == R.Divide(16, 16, Word(s.mem, 0x84), Word(s.mem, 0x86), Word(s.mem, 0x82), s.x)
    decreases s.x
  {
    t := Iteration(code, at, s);
    if t.x > 0 {
      var u := t;
      t := LoopRun(code, at, u);
      ReachesTrans(code, Config(at, s), Config(at, u), Config(at + 25, t));
    }
  }

  // ----- where the pieces of a routine are -----

  lemma {:induction false} WhereFirst(code: seq<Line>, name: Name, at: nat)
    requires at < |code| && code[at] == Label(name) && Label(name) !in code[..at]
    ensures Where(code, name) == at
    decreases at
  {
    if at > 0 {
      assert code[0] in code[..at];
      assert forall l :: l in code[1..][..at - 1] ==> l in code[..at];
      WhereFirst(code[1..], name, at - 1);
    }
  }

  lemma PlacedIn(code: seq<Line>, pre: seq<Line>, piece: seq<Line>, post: seq<Line>)
    requires code == pre + piece + post
    ensures Placed(code, |pre|, piece)
  {
  }

  ghost predicate FirstAt(piece: seq<Line>, k: nat, name: Name) {
    k < |piece| && piece[k] == Label(name) && forall j :: 0 <= j < k ==> piece[j] != Label(name)
  }

  ghost predicate NoLabel(piece: seq<Line>, name: Name) {
    forall j :: 0 <= j < |piece| ==> piece[j] != Label(name)
  }

  lemma WhereIn(code: seq<Line>, pre: seq<Line>, piece: seq<Line>, post: seq<Line>, k: nat, name: Name)
    requires code == pre + piece + post && FirstAt(piece, k, name) && NoLabel(pre, name)
    ensures Where(code, name) == |pre| + k
  {
    WhereFirst(code, name, |pre| + k);
  }

  lemma NoLabelAppend(p: seq<Line>, q: seq<Line>, name: Name)
    requires NoLabel(p, name) && NoLabel(q, name)
    ensures NoLabel(p + q, name)
  {
  }

  /** Index of each piece. */
  function SetupAt(signed: bool): nat { if signed then 41 else 17 }

  function BothAt(signed: bool): nat { SetupAt(signed) + 29 }

  function FixAt(signed: bool, both: bool): nat { BothAt(signed) + (if signed && both then 10 else 0) }

  function ResultIndex(signed: bool, both: bool): nat { FixAt(signed, both) + (if signed then 9 else 0) }

  lemma Regroup(a: seq<Line>, b: seq<Line>, c: seq<Line>, d: seq<Line>, e: seq<Line>, f: seq<Line>, g: seq<Line>)
    ensures var all := a + b + c + d + e + f + g;
      && all == [] + a + (b + c + d + e + f + g)
      && all == a + b + (c + d + e + f + g)
      && all == (a + b) + c + (d + e + f + g)
      && all == (a + b + c) + d + (e + f + g)
      && all == (a + b + c + d) + e + (f + g)
      && all == (a + b + c + d + e) + f + g
      && all == (a + b + c + d + e + f) + g + []
  {
  }

  lemma HeadLabels()
    ensures |Head()| == 17 && FirstAt(Head(), 16, Nonzero) && FirstAt(Head(), 14, Fault)
  {
  }

  lemma HeadFree(name: Name)
    requires name != Nonzero && name != Fault
    ensures NoLabel(Head(), name)
  {
  }

  lemma SignLabels()
    ensures |SignLines()| == 24 && FirstAt(SignLines(), 13, PositiveLeft) && FirstAt(SignLines(), 23, PositiveRight)
  {
  }

  lemma SignFree(name: Name)
    requires name != PositiveLeft && name != PositiveRight
    ensures NoLabel(SignLines(), name)
  {
  }

  lemma LoopFirst()
    ensures |LoopLines()| == 25
    ensures FirstAt(LoopLines(), 0, DivideLoop) && FirstAt(LoopLines(), 13, SubtractAt)
      && FirstAt(LoopLines(), 22, Next)
  {
  }

  lemma LoopFree(name: Name)
    requires name !in {DivideLoop, SubtractAt, Next}
    ensures NoLabel(LoopLines(), name)
  {
  }

  lemma TailFree(signed: bool, remainder: bool, both: bool, name: Name)
    ensures name != RemainderReady ==> NoLabel(Both(signed, both), name)
    ensures NoLabel(Fix(signed, remainder), name) && NoLabel(LoopSetup(), name)
    ensures |Both(signed, both)| == (if signed && both then 10 else 0) && |Fix(signed, remainder)| == if signed then 9 else 0
    ensures signed && both ==> FirstAt(Both(signed, both), 9, RemainderReady)
    ensures FirstAt(ResultLines(remainder), 0, ResultAt)
  {
    hide NoLabel, FirstAt, RemainderSign, ResultSign, LoopSetup, ResultLines;
    BothFree(signed, both, name);
    FixFree(signed, remainder, name);
    RestFree(remainder, name);
  }

  lemma BothFree(signed: bool, both: bool, name: Name)
    ensures name != RemainderReady ==> NoLabel(Both(signed, both), name)
    ensures |Both(signed, both)| == (if signed && both then 10 else 0)
    ensures signed && both ==> FirstAt(Both(signed, both), 9, RemainderReady)
  {
  }

  lemma FixFree(signed: bool, remainder: bool, name: Name)
    ensures NoLabel(Fix(signed, remainder), name) && |Fix(signed, remainder)| == if signed then 9 else 0
  {
  }

  lemma RestFree(remainder: bool, name: Name)
    ensures NoLabel(LoopSetup(), name) && FirstAt(ResultLines(remainder), 0, ResultAt)
  {
  }

  lemma SignsFree(signed: bool, name: Name)
    requires name != PositiveLeft && name != PositiveRight
    ensures NoLabel(Signs(signed), name)
    ensures |Signs(signed)| == if signed then 24 else 0
  {
    SignLabels();
    SignFree(name);
  }

  lemma LayoutHead(signed: bool, remainder: bool, both: bool)
    ensures var code := Body(signed, remainder, both);
      Placed(code, 0, Head()) && Where(code, Nonzero) == 16 && Where(code, Fault) == 14
  {
    hide Head, Signs, LoopSetup, LoopLines, Both, Fix, ResultLines, Where, NoLabel, FirstAt, Placed;
    var code := Body(signed, remainder, both);
    Regroup(Head(), Signs(signed), LoopSetup(), LoopLines(), Both(signed, both), Fix(signed, remainder),
        ResultLines(remainder));
    var rest := Signs(signed) + LoopSetup() + LoopLines() + Both(signed, both) + Fix(signed,
        remainder) + ResultLines(remainder);
    HeadLabels();
    PlacedIn(code, [], Head(), rest);
    WhereIn(code, [], Head(), rest, 16, Nonzero);
    WhereIn(code, [], Head(), rest, 14, Fault);
  }

  lemma LayoutSigns(remainder: bool, both: bool)
    ensures var code := Body(true, remainder, both);
      Placed(code, 17, SignLines()) && Where(code, PositiveLeft) == 30 && Where(code, PositiveRight) == 40
  {
    hide Head, SignLines, LoopSetup, LoopLines, Both, Fix, ResultLines, Where, NoLabel, FirstAt, Placed;
    var code := Body(true, remainder, both);
    Regroup(Head(), Signs(true), LoopSetup(), LoopLines(), Both(true, both), Fix(true, remainder),
        ResultLines(remainder));
    var rest := LoopSetup() + LoopLines() + Both(true, both) + Fix(true, remainder) + ResultLines(remainder);
    HeadLabels();
    HeadFree(PositiveLeft);
    HeadFree(PositiveRight);
    SignLabels();
    PlacedIn(code, Head(), SignLines(), rest);
    WhereIn(code, Head(), SignLines(), rest, 13, PositiveLeft);
    WhereIn(code, Head(), SignLines(), rest, 23, PositiveRight);
  }

  lemma BeforeLoop(signed: bool, name: Name)
    requires name !in {PositiveLeft, PositiveRight, Nonzero, Fault}
    ensures NoLabel(Head() + Signs(signed) + LoopSetup(), name)
    ensures |Head() + Signs(signed)| == SetupAt(signed) && |LoopSetup()| == 4
  {
    hide Head, Signs, NoLabel, FirstAt;
    HeadLabels();
    HeadFree(name);
    SignsFree(signed, name);
    TailFree(signed, false, false, name);
    NoLabelAppend(Head(), Signs(signed), name);
    NoLabelAppend(Head() + Signs(signed), LoopSetup(), name);
  }

  lemma LayoutLoop(signed: bool, remainder: bool, both: bool)
    ensures var code := Body(signed, remainder, both);
      && Placed(code, SetupAt(signed), LoopSetup()) && Placed(code, SetupAt(signed) + 4, LoopLines())
      && LoopLabels(code, SetupAt(signed) + 4)
  {
    hide Head, Signs, LoopSetup, LoopLines, Both, Fix, ResultLines, Where, NoLabel, FirstAt, Placed;
    var code := Body(signed, remainder, both);
    Regroup(Head(), Signs(signed), LoopSetup(), LoopLines(), Both(signed, both), Fix(signed, remainder),
        ResultLines(remainder));
    var pre := Head() + Signs(signed) + LoopSetup();
    var rest := Both(signed, both) + Fix(signed, remainder) + ResultLines(remainder);
    BeforeLoop(signed, DivideLoop);
    BeforeLoop(signed, SubtractAt);
    BeforeLoop(signed, Next);
    LoopFirst();
    PlacedIn(code, Head() + Signs(signed), LoopSetup(),
        LoopLines() + Both(signed, both) + Fix(signed, remainder) + ResultLines(remainder));
    PlacedIn(code, pre, LoopLines(), rest);
    WhereIn(code, pre, LoopLines(), rest, 0, DivideLoop);
    WhereIn(code, pre, LoopLines(), rest, 13, SubtractAt);
    WhereIn(code, pre, LoopLines(), rest, 22, Next);
  }

  lemma LayoutBoth(remainder: bool)
    ensures var code := Body(true, remainder, true);
      Placed(code, BothAt(true), RemainderSign()) && Where(code, RemainderReady) == BothAt(true) + 9
  {
    hide Head, Signs, LoopSetup, LoopLines, RemainderSign, Fix, ResultLines, Where, NoLabel, FirstAt, Placed;
    var code := Body(true, remainder, true);
    var pre, f, g := Head() + Signs(true) + LoopSetup(), Fix(true, remainder), ResultLines(remainder);
    Regroup(Head(), Signs(true), LoopSetup(), LoopLines(), Both(true, true), f, g);
    BeforeLoop(true, RemainderReady);
    LoopFirst();
    LoopFree(RemainderReady);
    TailFree(true, remainder, true, ResultAt);
    NoLabelAppend(pre, LoopLines(), RemainderReady);
    PlacedIn(code, pre + LoopLines(), RemainderSign(), f + g);
    WhereIn(code, pre + LoopLines(), RemainderSign(), f + g, 9, RemainderReady);
  }

  function UptoFix(signed: bool, both: bool): seq<Line> {
    Head() + Signs(signed) + LoopSetup() + LoopLines() + Both(signed, both)
  }

  lemma BeforeResult(signed: bool, remainder: bool, both: bool)
    ensures |UptoFix(signed, both)| == FixAt(signed, both) && |Fix(signed, remainder)| == (if signed then 9 else 0)
    ensures NoLabel(UptoFix(signed, both) + Fix(signed, remainder), ResultAt)
  {
    hide Head, Signs, LoopSetup, LoopLines, Both, Fix, NoLabel, FirstAt;
    var pre, d, e := Head() + Signs(signed) + LoopSetup(), LoopLines(), Both(signed, both);
    BeforeLoop(signed, ResultAt);
    LoopFirst();
    LoopFree(ResultAt);
    TailFree(signed, remainder, both, ResultAt);
    NoLabelAppend(pre, d, ResultAt);
    NoLabelAppend(pre + d, e, ResultAt);
    NoLabelAppend(pre + d + e, Fix(signed, remainder), ResultAt);
  }

  lemma LayoutResult(signed: bool, remainder: bool, both: bool)
    ensures var code := Body(signed, remainder, both);
      && Placed(code, FixAt(signed, both), Fix(signed, remainder))
      && Placed(code, ResultIndex(signed, both), ResultLines(remainder)) && |code| == ResultIndex(signed, both) + 3
      && Where(code, ResultAt) == ResultIndex(signed, both)
  {
    hide Head, Signs, LoopSetup, LoopLines, Both, Fix, Where, NoLabel, Placed;
    var code, pre, f, g := Body(signed, remainder, both), UptoFix(signed, both), Fix(signed,
        remainder), ResultLines(remainder);
    assert code == pre + f + g && code == (pre + f) + g + [];
    hide Body, UptoFix;
    BeforeResult(signed, remainder, both);
    PlacedIn(code, pre, f, g);
    PlacedIn(code, pre + f, g, []);
    WhereIn(code, pre + f, g, [], 0, ResultAt);
  }

  // ----- the routine as a whole -----

  function Signed(w: nat): int { if w >= 0x8000 then w - 0x10000 else w }

  function ToWord(v: int): nat { v % 0x10000 }

  function Negated(w: nat): nat
    requires w <= 0x10000
  {
    if w == 0 then 0 else 0x10000 - w
  }

  function Magnitude(v: int): nat { if v < 0 then -v else v }

  /** Division as the language defines it: toward zero, the remainder with the dividend's sign. */
  function Quotient(n: int, d: int): int
    requires d != 0
  {
    var q := Magnitude(n) / Magnitude(d);
    if (n < 0) != (d < 0) then -q else q
  }

  function Remainder(n: int, d: int): int
    requires d != 0
  {
    var r := Magnitude(n) % Magnitude(d);
    if n < 0 then -r else r
  }

  lemma SignRules(b: int, q: int)
    ensures -b * q == -(b * q) && b * -q == -(b * q) && -b * -q == b * q
  {
  }

  lemma TruncatingExists(n: int, d: int)
    requires d != 0
    ensures n == d * Quotient(n, d) + Remainder(n, d)
    ensures Magnitude(Remainder(n, d)) < Magnitude(d) && (Remainder(n, d) != 0 ==> (Remainder(n, d) < 0) == (n < 0))
  {
    SignRules(Magnitude(d), Magnitude(n) / Magnitude(d));
  }

  /** The rules of truncating division determine quotient and remainder. */
  lemma TruncatingUnique(n: int, d: int, q: int, r: int)
    requires d != 0
    requires n == d * q + r && Magnitude(r) < Magnitude(d) && (r != 0 ==> (r < 0) == (n < 0))
    ensures q == Quotient(n, d) && r == Remainder(n, d)
  {
    var qm := if (n < 0) != (d < 0) then -q else q;
    SignRules(Magnitude(d), q);
    assert Magnitude(n) == Magnitude(d) * qm + Magnitude(r);
    R.DivModUnique(Magnitude(n), Magnitude(d), qm, Magnitude(r));
  }

  /** SEC and two byte differences from zero negate a word. */
  lemma NegateEffect(s: State, low: byte)
    returns (states: seq<State>, t: State)
    requires low < 255
    requires !s.d
    ensures |states| == 8 && states[0] == s && states[7] == t
    ensures forall j :: 0 <= j < 7 ==> states[j + 1] == ExecLine(NegateWord(low)[j], states[j])
    ensures forall j :: 0 <= j < 7 ==> !states[j].d
    ensures t.x == s.x && t.y == s.y && Frame(s, t, {low as int, low + 1})
    ensures Word(t.mem, low) == Negated(Word(s.mem, low))
  {
    hide Exec;
    ClearSet(s);
    var s1 := s.(c := true);
    LdImm(s1, 0);
    var a1, a2, a := ByteDifference(s1, Imm(LDA, 0), 0, low, low);
    LdImm(a, 0);
    var b1, b2, b := ByteDifference(a, Imm(LDA, 0), 0, low + 1, low + 1);
    t := b;
    states := [s, s1, a1, a2, a, b1, b2, b];
    assert Word(t.mem, low) == 0x10000 * Carry(!b.c) - Word(s.mem, low);
  }

  lemma NegateRun(code: seq<Line>, at: nat, low: byte, name: Name, s: State)
    returns (t: State)
    requires low < 255 && Placed(code, at, NegateUnlessPositive(low, name)) && Where(code, name) == at + 8
    requires !s.d
    ensures Reaches(code, Config(at, s), Config(at + 8, t))
    ensures t.x == s.x && t.y == s.y && Frame(s, t, {low as int, low + 1})
    ensures Word(t.mem, low) == if s.n then Negated(Word(s.mem, low)) else Word(s.mem, low)
  {
    hide Exec, Taken, Where;
    var piece := NegateUnlessPositive(low, name);
    assert code[at] == piece[0];
    ReachesHere(code, Config(at, s));
    TakenIs(s);
    BranchStep(code, Config(at, s), at, s);
    t := s;
    if s.n {
      var states;
      states, t := NegateEffect(s, low);
      assert forall j :: 0 <= j < 7 ==> piece[1 + j] == NegateWord(low)[j];
      Straight(code, at, piece, 1, states);
      ReachesTrans(code, Config(at, s), Config(at + 1, s), Config(at + 8, t));
    }
  }

  /** Cells a returning run may change. */
  function Scratch(signed: bool): set<int> {
    {0x82, 0x83, 0x84, 0x85, 0x86, 0x87} + if signed then {0xC2, 0xC3} else {}
  }

  /** The word a caller passes in A (low) and X (high), or gets back there. */
  function AX(s: State): nat { s.a as int + 256 * s.x }

  lemma PrologueEffect(s: State)
    returns (states: seq<State>, t: State)
    ensures |states| == 6 && states[0] == s && states[5] == t
    ensures forall j :: 0 <= j < 5 ==> states[j + 1] == ExecLine(Head()[j], states[j])
    ensures t.x == s.x && t.y == s.y && Frame(s.(d := false), t, {0x82, 0x83}) && t.n == (t.a >= 128)
    ensures Word(t.mem, 0x82) == AX(s) && Word(t.mem, 0x84) == Word(s.mem, 0x84) && t.mem[0x83] == s.x
    ensures t.z <==> Word(s.mem, 0x84) == 0
  {
    hide Exec, Logic;
    ClearSet(s);
    var s1 := s.(d := false);
    Sta(s1, 0x82);
    var s2 := s1.(mem := s1.mem[0x82 := s1.a]);
    Stx(s2, 0x83);
    var s3 := s2.(mem := s2.mem[0x83 := s2.x]);
    Lda(s3, 0x84);
    var s4 := SetA(s3, s3.mem[0x84]);
    Ora(s4, 0x85);
    t := SetA(s4, Logic(BitOr, s4.a, s4.mem[0x85]));
    OrFacts(s4.a, s4.mem[0x85]);
    states := [s, s1, s2, s3, s4, t];
  }

  lemma OrFacts(p: byte, q: byte)
    ensures Logic(BitOr, p, q) == 0 <==> p == 0 && q == 0
  {
    Pow2Values();
    OrIsZero(p, q, 8);
  }

  lemma XorFacts(p: byte, q: byte)
    ensures Logic(BitXor, p, q) >= 128 <==> (p >= 128) != (q >= 128)
  {
    Pow2Values();
    XorTopBit(p, q, 8);
  }

  /** Storing the dividend and testing the divisor: on at line 17, or into the fault text at line 6. */
  lemma PrologueRun(code: seq<Line>, s: State)
    returns (t: State)
    requires Placed(code, 0, Head()) && Where(code, Nonzero) == 16
    ensures Reaches(code, Config(0, s), Config(if Word(s.mem, 0x84) == 0 then 6 else 17, t))
    ensures t.x == s.x && t.y == s.y && Frame(s.(d := false), t, {0x82, 0x83})
    ensures Word(t.mem, 0x82) == AX(s) && Word(t.mem, 0x84) == Word(s.mem, 0x84) && t.mem[0x83] == s.x
  {
    hide Exec, Taken, Where, Frame;
    var states;
    states, t := PrologueEffect(s);
    assert Head()[5] == Branch(BNE, Nonzero) && Head()[16] == Label(Nonzero) && |Head()| == 17;
    Straight(code, 0, Head(), 0, states);
    assert code[0 + 5] == Head()[5] && code[0 + 16] == Head()[16];
    TakenIs(t);
    BranchStep(code, Config(0, s), 5, t);
    if !t.z {
      ReachesStep(code, Config(0, s), Config(16, t));
    }
  }

  lemma FaultEffect(s: State)
    returns (states: seq<State>, t: State)
    ensures |states| == 4 && states[0] == s && states[3] == t
    ensures forall j :: 0 <= j < 3 ==> states[j + 1] == ExecLine(FaultLines(DIVISION_BY_ZERO)[j], states[j])
    ensures t.a == DIVISION_BY_ZERO && t.y == DIVISION_BY_ZERO && t.x == 0 && t.mem == s.mem && t.sp == s.sp
      && t.d == s.d
  {
    hide Exec;
    LdImm(s, DIVISION_BY_ZERO);
    var s1 := SetY(s, DIVISION_BY_ZERO);
    Txa(s1);
    Tya(s1);
    var s2 := SetA(s1, s1.y);
    LdImm(s2, 0);
    t := SetX(s2, 0);
    states := [s, s1, s2, t];
  }

  /** A zero divisor calls Error(101, 0, 101), with nothing but the dividend's cells written. */
  lemma ZeroDivisorCallsError(signed: bool, remainder: bool, both: bool, s: State)
    returns (t: State)
    requires Word(s.mem, 0x84) == 0
    ensures var code := Body(signed, remainder, both);
      && Reaches(code, Config(0, s), Config(9, t)) && 9 < |code| && code[9] == CallError
    ensures t.a == 101 && t.x == 0 && t.y == 101
    ensures Frame(s.(d := false), t, {0x82, 0x83})
  {
    hide Exec, Where, Body;
    var code := Body(signed, remainder, both);
    LayoutHead(signed, remainder, both);
    var u := PrologueRun(code, s);
    var states;
    states, t := FaultEffect(u);
    assert forall j :: 0 <= j < 10 ==> Head()[6 + j] == FaultLines(DIVISION_BY_ZERO)[j];
    assert |Head()| == 17;
    Straight(code, 0, Head(), 6, states);
    assert code[0 + 9] == Head()[9];
    ReachesTrans(code, Config(0, s), Config(6, u), Config(9, t));
  }

  /** Should Error return, in whatever state, the routine spins: it never gets past its fault text. */
  lemma {:induction false} FaultNeverReturns(signed: bool, remainder: bool, both: bool, e: State, n: nat)
    ensures 10 <= Steps(Body(signed, remainder, both), Config(10, e), n).pc <= 15
    ensures Steps(Body(signed, remainder, both), Config(10, e), n).pc >= 14 ==>
      Steps(Body(signed, remainder, both), Config(10, e), n).cpu.c
    decreases n
  {
    hide Exec, Where, Body;
    var code := Body(signed, remainder, both);
    if n > 0 {
      FaultNeverReturns(signed, remainder, both, e, n - 1);
      var c := Steps(code, Config(10, e), n - 1);
      LayoutHead(signed, remainder, both);
      assert code[0 + c.pc] == Head()[c.pc];
      ClearSet(c.cpu);
      TakenIs(c.cpu);
    }
  }

  lemma SignStart(s: State)
    returns (states: seq<State>, t: State)
    ensures |states| == 6 && states[0] == s && states[5] == t
    ensures forall j :: 0 <= j < 5 ==> states[j + 1] == ExecLine(SignLines()[j], states[j])
    ensures t.x == s.x && t.y == s.y && Frame(s, t, {0xC2, 0xC3}) && t.n == (s.x >= 128)
    ensures t.mem[0xC2] == s.x && (t.mem[0xC3] >= 128 <==> (s.x >= 128) != (s.mem[0x85] >= 128))
  {
    hide Exec, Logic;
    Stx(s, 0xC2);
    var s1 := s.(mem := s.mem[0xC2 := s.x]);
    Txa(s1);
    Tya(s1);
    var s2 := SetA(s1, s1.x);
    Eor(s2, 0x85);
    var s3 := SetA(s2, Logic(BitXor, s2.a, s2.mem[0x85]));
    Sta(s3, 0xC3);
    var s4 := s3.(mem := s3.mem[0xC3 := s3.a]);
    Txa(s4);
    Tya(s4);
    t := SetA(s4, s4.x);
    XorFacts(s.x, s.mem[0x85]);
    states := [s, s1, s2, s3, s4, t];
  }

  /** Load a cell and negate a word if the cell's top bit is set. */
  lemma TestAndNegate(code: seq<Line>, at: nat, cell: byte, low: byte, name: Name, s: State)
    returns (t: State)
    requires low < 255 && at + 9 <= |code| && Where(code, name) == at + 9
    requires code[at] == Zp(LDA, cell) && Placed(code, at + 1, NegateUnlessPositive(low, name))
    requires !s.d
    ensures Reaches(code, Config(at, s), Config(at + 9, t))
    ensures t.x == s.x && t.y == s.y && Frame(s, t, {low as int, low + 1})
    ensures Word(t.mem, low) == if s.mem[cell] >= 128 then Negated(Word(s.mem, low)) else Word(s.mem, low)
  {
    hide Exec, Where;
    Lda(s, cell);
    var u := SetA(s, s.mem[cell]);
    ReachesHere(code, Config(at, s));
    ReachesStep(code, Config(at, s), Config(at, s));
    t := NegateRun(code, at + 1, low, name, u);
    ReachesTrans(code, Config(at, s), Config(at + 1, u), Config(at + 9, t));
  }

  lemma PlacedWithin(code: seq<Line>, at: nat, piece: seq<Line>, k: nat, part: seq<Line>)
    requires Placed(code, at, piece) && k + |part| <= |piece| && piece[k..k + |part|] == part
    ensures Placed(code, at + k, part)
  {
    assert code[at..at + |piece|] == piece;
  }

  lemma SignPieces()
    ensures |SignLines()| == 24 && SignLines()[13] == Label(PositiveLeft) && SignLines()[23] == Label(PositiveRight)
    ensures SignLines()[14] == Zp(LDA, 0x85)
    ensures SignLines()[5..13] == NegateUnlessPositive(0x82, PositiveLeft)
    ensures SignLines()[15..23] == NegateUnlessPositive(0x84, PositiveRight)
  {
  }

  /** Recording the signs and taking the dividend's magnitude. */
  lemma SignLeft(code: seq<Line>, s: State)
    returns (t: State)
    requires Placed(code, 17, SignLines()) && Where(code, PositiveLeft) == 30
    requires s.x == s.mem[0x83]
    requires !s.d
    ensures Reaches(code, Config(17, s), Config(31, t))
    ensures t.y == s.y && Frame(s, t, {0x82, 0x83, 0xC2, 0xC3})
    ensures Word(t.mem, 0x82) == Magnitude(Signed(Word(s.mem, 0x82)))
    ensures t.mem[0xC2] >= 128 <==> Signed(Word(s.mem, 0x82)) < 0
    ensures t.mem[0xC3] >= 128 <==> (Signed(Word(s.mem, 0x82)) < 0) != (Signed(Word(s.mem, 0x84)) < 0)
  {
    hide Exec, Where, Reaches, Steps;
    var start := Config(17, s);
    var states, u;
    states, u := SignStart(s);
    SignPieces();
    Straight(code, 17, SignLines(), 0, states);
    PlacedWithin(code, 17, SignLines(), 5, NegateUnlessPositive(0x82, PositiveLeft));
    t := NegateRun(code, 22, 0x82, PositiveLeft, u);
    ReachesTrans(code, start, Config(22, u), Config(30, t));
    assert code[17 + 13] == SignLines()[13];
    ReachesStep(code, start, Config(30, t));
  }

  /** The sign prologue leaves magnitudes in the operand words and the result signs in $C2 and $C3. */
  lemma SignRun(code: seq<Line>, s: State)
    returns (t: State)
    requires Placed(code, 17, SignLines()) && Where(code, PositiveLeft) == 30 && Where(code, PositiveRight) == 40
    requires s.x == s.mem[0x83]
    requires !s.d
    ensures Reaches(code, Config(17, s), Config(41, t))
    ensures t.y == s.y && Frame(s, t, {0x82, 0x83, 0x84, 0x85, 0xC2, 0xC3})
    ensures Word(t.mem, 0x82) == Magnitude(Signed(Word(s.mem, 0x82)))
      && Word(t.mem, 0x84) == Magnitude(Signed(Word(s.mem, 0x84)))
    ensures t.mem[0xC2] >= 128 <==> Signed(Word(s.mem, 0x82)) < 0
    ensures t.mem[0xC3] >= 128 <==> (Signed(Word(s.mem, 0x82)) < 0) != (Signed(Word(s.mem, 0x84)) < 0)
  {
    hide Exec, Where, Reaches, Steps;
    var start := Config(17, s);
    var u := SignLeft(code, s);
    SignPieces();
    assert code[17 + 14] == SignLines()[14] && code[17 + 23] == SignLines()[23];
    PlacedWithin(code, 17, SignLines(), 15, NegateUnlessPositive(0x84, PositiveRight));
    t := TestAndNegate(code, 31, 0x85, 0x84, PositiveRight, u);
    ReachesTrans(code, start, Config(31, u), Config(40, t));
    ReachesStep(code, start, Config(40, t));
  }

  lemma SetupEffect(s: State)
    returns (states: seq<State>, t: State)
    ensures |states| == 5 && states[0] == s && states[4] == t
    ensures forall j :: 0 <= j < 4 ==> states[j + 1] == ExecLine(LoopSetup()[j], states[j])
    ensures t.x == 16 && t.y == s.y && Frame(s, t, {0x86, 0x87}) && Word(t.mem, 0x86) == 0
  {
    hide Exec;
    LdImm(s, 0);
    var s1 := SetA(s, 0);
    Sta(s1, 0x86);
    var s2 := s1.(mem := s1.mem[0x86 := s1.a]);
    Sta(s2, 0x87);
    var s3 := s2.(mem := s2.mem[0x87 := s2.a]);
    LdImm(s3, 16);
    t := SetX(s3, 16);
    states := [s, s1, s2, s3, t];
  }

  /** Set-up and loop: quotient over the dividend, remainder in $86:$87. */
  lemma DivideRun(signed: bool, remainder: bool, both: bool, s: State)
    returns (t: State)
    requires Word(s.mem, 0x84) > 0
    requires !s.d
    ensures Reaches(Body(signed, remainder, both), Config(SetupAt(signed), s), Config(BothAt(signed), t))
    ensures t.y == s.y && Frame(s, t, {0x82, 0x83, 0x86, 0x87})
    ensures Word(t.mem, 0x82) == Word(s.mem, 0x82) / Word(s.mem, 0x84)
    ensures Word(t.mem, 0x86) == Word(s.mem, 0x82) % Word(s.mem, 0x84)
  {
    hide Exec, Where, Body, R.Divide, Pow2;
    var code, at := Body(signed, remainder, both), SetupAt(signed);
    LayoutLoop(signed, remainder, both);
    var states, s1;
    states, s1 := SetupEffect(s);
    Straight(code, at, LoopSetup(), 0, states);
    t := LoopRun(code, at + 4, s1);
    ReachesTrans(code, Config(at, s), Config(at + 4, s1), Config(at + 29, t));
    Pow2Values();
    R.DivisionAtAnyWidth(16, 16, Word(s1.mem, 0x82), Word(s1.mem, 0x84));
  }

  /** Loading the selected word into A and X ends the text. */
  lemma ResultRun(code: seq<Line>, at: nat, remainder: bool, s: State)
    returns (t: State)
    requires Placed(code, at, ResultLines(remainder))
    ensures Reaches(code, Config(at, s), Config(at + 3, t))
    ensures t.y == s.y && t.mem == s.mem && t.sp == s.sp && t.d == s.d && AX(t) == Word(s.mem, if remainder then 0x86 else 0x82)
  {
    hide Exec;
    var low: byte := if remainder then 0x86 else 0x82;
    Lda(s, low);
    var s1 := SetA(s, s.mem[low]);
    Ldx(s1, low + 1);
    t := SetX(s1, s1.mem[low + 1]);
    Straight(code, at, ResultLines(remainder), 0, [s, s, s1, t]);
  }

  /**
   * Unsigned division: for every nonzero divisor the run ends with the quotient, or the remainder, in A:X
   * and the other one in zero page; only scratch cells change.
   */
  lemma UnsignedDivision(remainder: bool, both: bool, s: State)
    returns (t: State)
    requires Word(s.mem, 0x84) > 0
    ensures var code := Body(false, remainder, both); Reaches(code, Config(0, s), Config(|code|, t))
    ensures AX(t) == if remainder then AX(s) % Word(s.mem, 0x84) else AX(s) / Word(s.mem, 0x84)
    ensures Word(t.mem, 0x82) == AX(s) / Word(s.mem, 0x84) && Word(t.mem, 0x86) == AX(s) % Word(s.mem, 0x84)
    ensures t.y == s.y && Frame(s.(d := false), t, Scratch(false))
  {
    hide Exec, Where, Body, Reaches, Word;
    var code := Body(false, remainder, both);
    LayoutHead(false, remainder, both);
    LayoutResult(false, remainder, both);
    var s1 := PrologueRun(code, s);
    var s2 := DivideRun(false, remainder, both, s1);
    ReachesTrans(code, Config(0, s), Config(17, s1), Config(46, s2));
    t := ResultRun(code, 46, remainder, s2);
    ReachesTrans(code, Config(0, s), Config(46, s2), Config(49, t));
  }

  /** The signed routine up to its correction of signs. */
  lemma SignedCore(remainder: bool, both: bool, s: State)
    returns (t: State)
    requires Word(s.mem, 0x84) > 0
    ensures Reaches(Body(true, remainder, both), Config(0, s), Config(BothAt(true), t))
    ensures t.y == s.y && Frame(s.(d := false), t, Scratch(true))
    ensures var n, d := Signed(AX(s)), Signed(Word(s.mem, 0x84));
      && d != 0
      && Word(t.mem, 0x82) == Magnitude(n) / Magnitude(d) && Word(t.mem, 0x86) == Magnitude(n) % Magnitude(d)
      && (t.mem[0xC2] >= 128 <==> n < 0) && (t.mem[0xC3] >= 128 <==> (n < 0) != (d < 0))
  {
    hide Exec, Where, Body, Reaches, Word;
    var code := Body(true, remainder, both);
    LayoutHead(true, remainder, both);
    LayoutSigns(remainder, both);
    var s1 := PrologueRun(code, s);
    var s2 := SignRun(code, s1);
    ReachesTrans(code, Config(0, s), Config(17, s1), Config(41, s2));
    t := DivideRun(true, remainder, both, s2);
    ReachesTrans(code, Config(0, s), Config(41, s2), Config(BothAt(true), t));
  }

  lemma SignedDivides(n: int, d: int)
    requires d != 0
    ensures Quotient(n, d)
      == (if (n < 0) != (d < 0) then -(Magnitude(n) / Magnitude(d)) else Magnitude(n) / Magnitude(d))
    ensures Remainder(n, d) == (if n < 0 then -(Magnitude(n) % Magnitude(d)) else Magnitude(n) % Magnitude(d))
  {
  }

  lemma NegatedWord(m: int)
    requires 0 <= m <= 0x8000
    ensures ToWord(-m) == Negated(m) && ToWord(m) == m
  {
  }

  lemma WordRanges(n: nat, d: nat)
    requires n <= 0x8000 && 0 < d <= 0x8000
    ensures n / d <= n && n % d <= 0x7FFF
    ensures n / d == 0x8000 ==> n == 0x8000 && d == 1
  {
    var q := n / d;
    assert n == d * q + n % d;
    R.Below(1, d, q);
    if d > 1 { R.Below(2, d, q); }
  }

  /** Negating the remainder word in place when both results are wanted. */
  lemma BothRun(remainder: bool, s: State)
    returns (t: State)
    requires !s.d
    ensures Reaches(Body(true, remainder, true), Config(BothAt(true), s), Config(FixAt(true, true), t))
    ensures t.y == s.y && Frame(s, t, {0x86, 0x87})
    ensures Word(t.mem, 0x86) == if s.mem[0xC2] >= 128 then Negated(Word(s.mem, 0x86)) else Word(s.mem, 0x86)
  {
    hide Exec, Where, Body, Reaches;
    var code, at := Body(true, remainder, true), BothAt(true);
    LayoutBoth(remainder);
    PlacedWithin(code, at, RemainderSign(), 1, NegateUnlessPositive(0x86, RemainderReady));
    assert code[at + 0] == RemainderSign()[0] && code[at + 9] == RemainderSign()[9] == Label(RemainderReady);
    t := TestAndNegate(code, at, 0xC2, 0x86, RemainderReady, s);
    ReachesStep(code, Config(at, s), Config(at + 9, t));
  }

  /** Negating the selected result in place, then loading it. */
  lemma FixRun(remainder: bool, both: bool, s: State)
    returns (t: State)
    requires !s.d
    ensures var code := Body(true, remainder, both); Reaches(code, Config(FixAt(true, both), s), Config(|code|, t))
    ensures var low: byte := if remainder then 0x86 else 0x82;
      && t.y == s.y && Frame(s, t, {low as int, low + 1}) && AX(t) == Word(t.mem, low)
      && Word(t.mem, low)
         == if s.mem[if remainder then 0xC2 else 0xC3] >= 128 then Negated(Word(s.mem, low)) else Word(s.mem, low)
  {
    hide Exec, Where, Body, Reaches;
    var code, at := Body(true, remainder, both), FixAt(true, both);
    var low: byte := if remainder then 0x86 else 0x82;
    LayoutResult(true, remainder, both);
    PlacedWithin(code, at, ResultSign(remainder), 1, NegateUnlessPositive(low, ResultAt));
    assert code[at + 0] == ResultSign(remainder)[0];
    var u := TestAndNegate(code, at, if remainder then 0xC2 else 0xC3, low, ResultAt, s);
    t := ResultRun(code, at + 9, remainder, u);
    ReachesTrans(code, Config(at, s), Config(at + 9, u), Config(at + 12, t));
  }

  /**
   * Signed division truncates toward zero and gives the remainder the dividend's sign. With `both`,
   * A:X holds the quotient and $86:$87 the remainder.
   */
  lemma SignedDivision(remainder: bool, both: bool, s: State)
    returns (t: State)
    requires Word(s.mem, 0x84) > 0 && !(remainder && both)
    ensures var code := Body(true, remainder, both); Reaches(code, Config(0, s), Config(|code|, t))
    ensures var n, d := Signed(AX(s)), Signed(Word(s.mem, 0x84));
      && d != 0
      && AX(t) == ToWord(if remainder then Remainder(n, d) else Quotient(n, d))
      && (both ==> Word(t.mem, 0x86) == ToWord(Remainder(n, d)))
    ensures t.y == s.y && Frame(s.(d := false), t, Scratch(true))
  {
    hide Exec, Where, Body, Reaches, Word, Quotient, Remainder, Negated, ToWord;
    var code := Body(true, remainder, both);
    var n, d := Signed(AX(s)), Signed(Word(s.mem, 0x84));
    var s1 := SignedCore(remainder, both, s);
    var s2 := s1;
    if both {
      s2 := BothRun(remainder, s1);
      ReachesTrans(code, Config(0, s), Config(BothAt(true), s1), Config(FixAt(true, true), s2));
      WordKept(s1, s2, 0x82);
    }
    t := FixRun(remainder, both, s2);
    ReachesTrans(code, Config(0, s), Config(FixAt(true, both), s2), Config(|code|, t));
    SignedDivides(n, d);
    WordRanges(Magnitude(n), Magnitude(d));
    NegatedWord(Magnitude(n) / Magnitude(d));
    NegatedWord(Magnitude(n) % Magnitude(d));
    WordKept(s2, t, 0x86);
  }

  lemma WordKept(s: State, t: State, low: byte)
    requires low < 255
    ensures t.mem[low] == s.mem[low] && t.mem[low + 1] == s.mem[low + 1] ==> Word(t.mem, low) == Word(s.mem, low)
  {
  }

  /** The signed quotient fits a word except in one case, where it wraps to its dividend. */
  lemma OnlyOneWrap(n: int, d: int)
    requires -0x8000 <= n < 0x8000 && -0x8000 <= d < 0x8000 && d != 0
    ensures Signed(ToWord(Quotient(n, d))) == Quotient(n, d) <==> !(n == -0x8000 && d == -1)
    ensures Signed(ToWord(Quotient(-0x8000, -1))) == -0x8000
    ensures Signed(ToWord(Remainder(n, d))) == Remainder(n, d)
  {
    WordRanges(Magnitude(n), Magnitude(d));
    SignedDivides(n, d);
    SignedDivides(-0x8000, -1);
    SignedWords(Quotient(n, d));
    SignedWords(Remainder(n, d));
    hide Quotient, Remainder;
  }

  lemma SignedWords(v: int)
    requires -0x8000 <= v <= 0x8000
    ensures Signed(ToWord(v)) == v <==> v != 0x8000
    ensures Signed(ToWord(0x8000)) == -0x8000
  {
  }
}
