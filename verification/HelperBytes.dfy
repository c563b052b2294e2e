/** The division routines as bytes: the assembled block does, byte for byte, what the lines do. */
module HelperBytes {
  import opened Wrappers
  import opened Isa
  import opened Cpu
  import opened HelperText
  import A = Assembler
  import C = ConstExpr
  import D = Division
  import N = NarrowDivision
  import Layout = AsmLayout
  import Accept = AsmAccept
  import Flow = AsmGraph
  import Sweeps = AsmSweep
  import Depth = AsmDepth
  import Stack = AsmStack
  import M = AsmLockstep

  // ----- the machine that runs the bytes -----

  function Instructions(p: A.Program): seq<Flow.Ins> { Layout.Listing(p.table.code) }

  ghost predicate Runs(p: A.Program, c: M.Config, e: M.Config)
  {
    M.Fits(p.bytes, Instructions(p))
      && exists k :: M.Run(p.bytes, Accept.ControlTargets(p.relocs), Instructions(p), c, k) == e
  }

  /** The block an accepted text becomes. */
  ghost predicate IsBlock(code: seq<D.Line>, chars: map<string, C.i32>, p: A.Program) {
    && Layout.Accepted(Text(code), chars, p) && TableOf(code, |code|, p.table)
    && Layout.NoneWide(p.table, |p.table.code|, chars)
  }

  function PlaceOf(code: seq<D.Line>, pc: nat): M.Place
    requires pc <= |code|
  {
    if Count(code, pc) < Count(code, |code|) then M.Inside(Count(code, pc)) else M.Outside
  }

  lemma BlockBytes(code: seq<D.Line>, chars: map<string, C.i32>, p: A.Program)
    requires IsBlock(code, chars, p)
    ensures Flow.Decoded(p.bytes, 0) == Some(Instructions(p)) && Flow.Tiles(p.bytes, 0, |p.bytes|, Instructions(p))
    ensures M.Fits(p.bytes, Instructions(p)) && |Instructions(p)| == Count(code, |code|)
      && |p.bytes| == OffsetOf(code, |code|)
  {
    hide Flow.Decoded, Layout.NoneWide, TableOf, Decode, A.Assembled, Count, OffsetOf;
    Layout.LayoutExact(Text(code), chars, p);
    Flow.DecodedTiles(p.bytes, 0);
    CodeLength(code, p.table);
  }

  /** The instruction of a line: its operation, its place and its operand bytes. */
  lemma LineEncoded(code: seq<D.Line>, chars: map<string, C.i32>, p: A.Program, k: nat)
    requires Neat(code) && IsBlock(code, chars, p) && k < |code| && !code[k].Label?
    ensures Count(code, k) < |p.table.code| && Fine(code, k)
    ensures var ins := Instructions(p)[Count(code, k)];
      && ins == Flow.Ins(OffsetOf(code, k), OpOf(code[k]))
      && ins.offset + Flow.Size(ins) <= |p.bytes|
      && p.bytes[ins.offset + 1..ins.offset + Flow.Size(ins)] == OperandBytes(code, k)
  {
    hide Neat, TableOf, Layout.NoneWide, A.Assembled, A.EmitOperand, A.EmittedUpto, A.Entered, A.Template, OpOf,
         Count, OffsetOf, OperandBytes,
         Fine, Layout.Laid, Layout.SelectsWide;
    Layout.AcceptedParts(Text(code), chars, p);
    LineAt(code, k, p.table, chars);
    Layout.BytesAt(p.table, |p.table.code|, Count(code, k), chars);
  }

  // ----- where control goes -----

  /** The next line that is an instruction. */
  lemma {:induction false} FirstLine(code: seq<D.Line>, j: nat) returns (k: nat)
    requires j <= |code| && Count(code, j) < Count(code, |code|)
    ensures j <= k < |code| && !code[k].Label? && Count(code, k) == Count(code, j)
      && OffsetOf(code, k) == OffsetOf(code, j)
    decreases |code| - j
  {
    hide OpOf;
    k := j;
    if code[j].Label? {
      assert Count(code, j + 1) == Count(code, j) && OffsetOf(code, j + 1) == OffsetOf(code, j);
      k := FirstLine(code, j + 1);
    }
  }

  lemma {:induction false} OnlyLabels(code: seq<D.Line>, j: nat)
    requires j <= |code| && Count(code, j) == Count(code, |code|)
    ensures OffsetOf(code, j) == OffsetOf(code, |code|)
    decreases |code| - j
  {
    hide OpOf;
    if j < |code| {
      CountGrows(code, j + 1, |code|);
      assert Count(code, j + 1) == Count(code, j) + if code[j].Label? then 0 else 1;
      OnlyLabels(code, j + 1);
    }
  }

  /** The instruction at a line's offset is the first one from that line on, or none at the end of the text. */
  lemma PlaceReached(code: seq<D.Line>, chars: map<string, C.i32>, p: A.Program, j: nat)
    requires Neat(code) && IsBlock(code, chars, p) && j <= |code|
    ensures M.LandAt(p.bytes, Instructions(p), OffsetOf(code, j)) == PlaceOf(code, j)
  {
    hide Neat, IsBlock, Count, OffsetOf, Flow.IndexOf, OperandBytes, OpOf, Fine, Decode, Sensible, Flow.Decoded;
    BlockBytes(code, chars, p);
    CountGrows(code, j, |code|);
    if Count(code, j) < Count(code, |code|) {
      var k := FirstLine(code, j);
      LineEncoded(code, chars, p, k);
      Flow.IndexUnique(p.bytes, Instructions(p), Count(code, k));
    } else {
      OnlyLabels(code, j);
      var r := Flow.IndexOf(Instructions(p), OffsetOf(code, j));
    }
  }

  lemma OnwardIs(code: seq<D.Line>, chars: map<string, C.i32>, p: A.Program, k: nat)
    requires IsBlock(code, chars, p) && k < |code| && !code[k].Label?
    ensures M.Onward(Instructions(p), Count(code, k)) == PlaceOf(code, k + 1)
    ensures PlaceOf(code, k) == M.Inside(Count(code, k))
  {
    hide Flow.Decoded, Flow.Tiles, IsBlock, OffsetOf;
    BlockBytes(code, chars, p);
    CountGrows(code, k + 1, |code|);
  }

  // ----- one line, one instruction -----

  lemma ByteAt(bytes: seq<byte>, from: nat, upto: nat, part: seq<byte>)
    requires from <= upto <= |bytes| && bytes[from..upto] == part
    ensures forall i :: 0 <= i < |part| ==> bytes[from + i] == part[i]
  {
    forall i | 0 <= i < |part| ensures bytes[from + i] == part[i] { assert bytes[from..upto][i] == bytes[from + i]; }
  }

  lemma DataOperand(code: seq<D.Line>, chars: map<string, C.i32>, p: A.Program, k: nat)
    requires Neat(code) && IsBlock(code, chars, p) && k < |code| && code[k].Data?
    ensures Count(code, k) < |Instructions(p)|
    ensures var ins := Instructions(p)[Count(code, k)];
      && ins.op == code[k].op && ins.offset + Flow.Size(ins) <= |p.bytes|
      && M.OperandAt(p.bytes, ins) == code[k].operand
  {
    hide IsBlock, Count, OffsetOf, Neat, Encodable;
    LineEncoded(code, chars, p, k);
    var ins := Instructions(p)[Count(code, k)];
    ByteAt(p.bytes, ins.offset + 1, ins.offset + Flow.Size(ins), OperandBytes(code, k));
    if ins.op.mode != Implied { assert p.bytes[ins.offset + 1 + 0] == code[k].operand; }
  }

  lemma FineData(code: seq<D.Line>, k: nat)
    requires k < |code| && code[k].Data? && Fine(code, k)
    ensures var op := code[k].op; op.mode != Relative && op.mnemonic != JMP && !Flow.Returns(op.mnemonic)
  {
    hide OpcodeFor, Decode, D.Where;
    OpcodeRoundTrip(code[k].op);
    assert Sensible(code[k].op);
  }

  ghost predicate Matches(code: seq<D.Line>, p: A.Program, k: nat, s: State, c: D.Config)
    requires k <= |code| && c.pc <= |code| && M.Fits(p.bytes, Instructions(p))
  {
    M.Step(p.bytes, Accept.ControlTargets(p.relocs), Instructions(p), M.Config(PlaceOf(code, k), s))
      == M.Config(PlaceOf(code, c.pc), c.cpu)
  }

  lemma DataMatches(code: seq<D.Line>, chars: map<string, C.i32>, p: A.Program, k: nat, s: State)
    requires Neat(code) && IsBlock(code, chars, p) && k < |code| && code[k].Data?
    ensures M.Fits(p.bytes, Instructions(p))
    ensures Matches(code, p, k, s, D.Config(k + 1, Exec(code[k].op, code[k].operand, s)))
  {
    hide IsBlock, Count, OffsetOf, Neat, Exec, Flow.Decoded, Flow.Tiles, M.OperandAt, PlaceOf, Accept.ControlTargets,
         Instructions;
    BlockBytes(code, chars, p);
    assert Fine(code, k) by { LineEncoded(code, chars, p, k); }
    FineData(code, k);
    DataOperand(code, chars, p, k);
    OnwardIs(code, chars, p, k);
  }

  lemma BranchIdle(m: Mnemonic, operand: word, s: State)
    requires Encodable(Op(m, Relative))
    ensures Exec(Op(m, Relative), operand, s) == s
  {
    hide MoveExec, TransferExec, LogicalExec, CompareExec, ArithmeticExec, CountExec, RotateExec, AdjustExec,
         StackExec, FlagExec,
         Cpu.Address, Fetch, Decode, OpcodeFor;
    OpcodeRoundTrip(Op(m, Relative));
    assert Sensible(Op(m, Relative));
  }

  lemma BranchLeads(code: seq<D.Line>, chars: map<string, C.i32>, p: A.Program, k: nat)
    requires Neat(code) && IsBlock(code, chars, p) && k < |code| && code[k].Branch?
    ensures Count(code, k) < |Instructions(p)| && D.Where(code, code[k].to) < |code|
    ensures var ins := Instructions(p)[Count(code, k)];
      && ins.op == Op(code[k].mnemonic, Relative) && ins.offset + Flow.Size(ins) <= |p.bytes|
      && Flow.BranchTarget(p.bytes, ins) == OffsetOf(code, D.Where(code, code[k].to))
  {
    hide IsBlock, Count, OffsetOf, Neat, Encodable, D.Where;
    LineEncoded(code, chars, p, k);
    NearEnough(code, k);
    var ins := Instructions(p)[Count(code, k)];
    ByteAt(p.bytes, ins.offset + 1, ins.offset + Flow.Size(ins), OperandBytes(code, k));
    assert p.bytes[ins.offset + 1 + 0] == Displacement(code, k) % 256;
  }

  lemma BranchMatches(code: seq<D.Line>, chars: map<string, C.i32>, p: A.Program, k: nat, s: State)
    requires Neat(code) && IsBlock(code, chars, p) && k < |code| && code[k].Branch?
    ensures M.Fits(p.bytes, Instructions(p)) && D.Where(code, code[k].to) < |code|
    ensures Matches(code, p, k, s, D.Config(if Taken(code[k].mnemonic, s) then D.Where(code, code[k].to) else k + 1, s))
  {
    hide IsBlock, Count, OffsetOf, Neat, Exec, Flow.Decoded, Flow.Tiles, M.OperandAt, PlaceOf, Accept.ControlTargets,
         Instructions,
         Flow.BranchTarget, Taken, D.Where, Flow.IndexOf;
    BlockBytes(code, chars, p);
    assert Fine(code, k) by { LineEncoded(code, chars, p, k); }
    BranchLeads(code, chars, p, k);
    var ins := Instructions(p)[Count(code, k)];
    BranchIdle(code[k].mnemonic, M.OperandAt(p.bytes, ins), s);
    OnwardIs(code, chars, p, k);
    PlaceReached(code, chars, p, D.Where(code, code[k].to));
  }

  // ----- runs -----

  function Start(code: seq<D.Line>, s: State): M.Config { M.Config(PlaceOf(code, 0), s) }

  lemma RunsHere(p: A.Program, c: M.Config)
    requires M.Fits(p.bytes, Instructions(p))
    ensures Runs(p, c, c)
  {
    assert M.Run(p.bytes, Accept.ControlTargets(p.relocs), Instructions(p), c, 0) == c;
  }

  lemma RunsOn(p: A.Program, c: M.Config, d: M.Config, e: M.Config)
    requires Runs(p, c, d) && M.Step(p.bytes, Accept.ControlTargets(p.relocs), Instructions(p), d) == e
    ensures Runs(p, c, e)
  {
    hide M.Step;
    var k: nat :| M.Run(p.bytes, Accept.ControlTargets(p.relocs), Instructions(p), c, k) == d;
    assert M.Run(p.bytes, Accept.ControlTargets(p.relocs), Instructions(p), c, k + 1) == e;
  }

  lemma LineMatches(code: seq<D.Line>, chars: map<string, C.i32>, p: A.Program, c: M.Config, d: D.Config)
    requires Neat(code) && IsBlock(code, chars, p) && d.pc <= |code| && Runs(p, c, M.Config(PlaceOf(code, d.pc), d.cpu))
    ensures var e := D.Step(code, d); e.pc <= |code| && Runs(p, c, M.Config(PlaceOf(code, e.pc), e.cpu))
  {
    hide IsBlock, OffsetOf, Neat, Exec, Taken, D.Where, Runs, M.Step, Accept.ControlTargets, Instructions, M.Fits;
    if d.pc < |code| && !D.Blocked(code[d.pc], d.cpu) {
      match code[d.pc]
      case Label(_) => assert Count(code, d.pc + 1) == Count(code, d.pc);
      case Data(_, _) =>
        DataMatches(code, chars, p, d.pc, d.cpu);
        var e := D.Step(code, d);
        RunsOn(p, c, M.Config(PlaceOf(code, d.pc), d.cpu), M.Config(PlaceOf(code, e.pc), e.cpu));
      case Branch(_, _) =>
        BranchMatches(code, chars, p, d.pc, d.cpu);
        var e := D.Step(code, d);
        RunsOn(p, c, M.Config(PlaceOf(code, d.pc), d.cpu), M.Config(PlaceOf(code, e.pc), e.cpu));
      case CallError =>
    }
  }

  /** However far the lines run, the bytes get to the same place with the same machine. */
  lemma {:induction false} BytesFollowLines(code: seq<D.Line>, chars: map<string, C.i32>, p: A.Program, s: State,
      n: nat)
    requires Neat(code) && IsBlock(code, chars, p)
    ensures var d := D.Steps(code, D.Config(0, s), n);
      d.pc <= |code| && Runs(p, Start(code, s), M.Config(PlaceOf(code, d.pc), d.cpu))
  {
    hide IsBlock, Neat, Runs, D.Step, PlaceOf;
    if n == 0 {
      BlockBytes(code, chars, p);
      RunsHere(p, Start(code, s));
    } else {
      BytesFollowLines(code, chars, p, s, n - 1);
      LineMatches(code, chars, p, Start(code, s), D.Steps(code, D.Config(0, s), n - 1));
    }
  }

  lemma BytesReach(code: seq<D.Line>, chars: map<string, C.i32>, p: A.Program, s: State, d: D.Config)
    requires Neat(code) && IsBlock(code, chars, p) && D.Reaches(code, D.Config(0, s), d)
    ensures d.pc <= |code| && Runs(p, Start(code, s), M.Config(PlaceOf(code, d.pc), d.cpu))
  {
    hide IsBlock, Neat, Runs, D.Step, PlaceOf;
    var n: nat :| D.Steps(code, D.Config(0, s), n) == d;
    BytesFollowLines(code, chars, p, s, n);
  }

  // ----- the routines are texts of this kind -----

  lemma Has(opcode: byte, op: Op)
    requires Decode(opcode) == Some(op)
    ensures Encodable(op)
  {
    hide Decode;
    OpcodeRoundTrip(op);
  }

  lemma InRows00()
    ensures Encodable(Op(ORA, ZeroPage)) && Encodable(Op(ASL, ZeroPage))
    ensures Encodable(Op(BPL, Relative))
  {
    hide OpcodeFor, Encodable, Rows20, Rows40, Rows60, Rows80, RowsA0, RowsC0, RowsE0, Sensible;
    Has(0x05, Op(ORA, ZeroPage));
    Has(0x06, Op(ASL, ZeroPage));
    Has(0x10, Op(BPL, Relative));
  }

  lemma InRows20()
    ensures Encodable(Op(SEC, Implied)) && Encodable(Op(JSR, Absolute))
    ensures Encodable(Op(ROL, ZeroPage))
  {
    hide OpcodeFor, Encodable, Rows00, Rows40, Rows60, Rows80, RowsA0, RowsC0, RowsE0, Sensible;
    Has(0x38, Op(SEC, Implied));
    Has(0x20, Op(JSR, Absolute));
    Has(0x26, Op(ROL, ZeroPage));
  }

  lemma InRows40()
    ensures Encodable(Op(EOR, ZeroPage))
  {
    hide OpcodeFor, Encodable, Rows00, Rows20, Rows60, Rows80, RowsA0, RowsC0, RowsE0, Sensible;
    Has(0x45, Op(EOR, ZeroPage));
  }

  lemma InRows80()
    ensures Encodable(Op(TYA, Implied)) && Encodable(Op(TXA, Implied))
    ensures Encodable(Op(STA, ZeroPage)) && Encodable(Op(STX, ZeroPage))
    ensures Encodable(Op(BCC, Relative))
  {
    hide OpcodeFor, Encodable, Rows00, Rows20, Rows40, Rows60, RowsA0, RowsC0, RowsE0, Sensible;
    Has(0x98, Op(TYA, Implied));
    Has(0x8A, Op(TXA, Implied));
    Has(0x85, Op(STA, ZeroPage));
    Has(0x86, Op(STX, ZeroPage));
    Has(0x90, Op(BCC, Relative));
  }

  lemma InRowsA0()
    ensures Encodable(Op(LDA, Immediate)) && Encodable(Op(LDX, Immediate))
    ensures Encodable(Op(LDY, Immediate)) && Encodable(Op(LDA, ZeroPage))
    ensures Encodable(Op(LDX, ZeroPage)) && Encodable(Op(BCS, Relative))
  {
    hide OpcodeFor, Encodable, Rows00, Rows20, Rows40, Rows60, Rows80, RowsC0, RowsE0, Sensible;
    Has(0xA9, Op(LDA, Immediate));
    Has(0xA2, Op(LDX, Immediate));
    Has(0xA0, Op(LDY, Immediate));
    Has(0xA5, Op(LDA, ZeroPage));
    Has(0xA6, Op(LDX, ZeroPage));
    Has(0xB0, Op(BCS, Relative));
  }

  lemma InRowsC0()
    ensures Encodable(Op(CLD, Implied)) && Encodable(Op(DEX, Implied))
    ensures Encodable(Op(CMP, ZeroPage)) && Encodable(Op(BNE, Relative))
  {
    hide OpcodeFor, Encodable, Rows00, Rows20, Rows40, Rows60, Rows80, RowsA0, RowsE0, Sensible;
    Has(0xD8, Op(CLD, Implied));
    Has(0xCA, Op(DEX, Implied));
    Has(0xC5, Op(CMP, ZeroPage));
    Has(0xD0, Op(BNE, Relative));
  }

  lemma InRowsE0()
    ensures Encodable(Op(SBC, ZeroPage)) && Encodable(Op(INC, ZeroPage))
  {
    hide OpcodeFor, Encodable, Rows00, Rows20, Rows40, Rows60, Rows80, RowsA0, RowsC0, Sensible;
    Has(0xE5, Op(SBC, ZeroPage));
    Has(0xE6, Op(INC, ZeroPage));
  }

  /** Lines of the routines other than labels and branches, and branches whatever their label. */
  predicate Usual(line: D.Line) {
    match line
    case Label(_) => true
    case Data(op, operand) =>
      && operand < 256 && (op.mode == Implied ==> operand == 0)
      && ((op.mode.Implied? && (op.mnemonic.CLD? || op.mnemonic.TYA? || op.mnemonic.SEC? || op.mnemonic.TXA? || op.mnemonic.DEX?))
          || (op.mode.Immediate? && (op.mnemonic.LDA? || op.mnemonic.LDX? || op.mnemonic.LDY?))
          || (op.mode.ZeroPage? && (op.mnemonic.LDA? || op.mnemonic.LDX? || op.mnemonic.STA? || op.mnemonic.STX?
                || op.mnemonic.ORA? || op.mnemonic.EOR? || op.mnemonic.SBC? || op.mnemonic.CMP?
                || op.mnemonic.ASL? || op.mnemonic.ROL? || op.mnemonic.INC?)))
    case Branch(m, _) => m.BNE? || m.BCS? || m.BCC? || m.BPL?
    case CallError => true
  }

  predicate AllUsual(piece: seq<D.Line>) { forall j :: 0 <= j < |piece| ==> Usual(piece[j]) }

  /**
   * Labels where they should be, branches to near ones, and no call but the one before the guard against its return.
   */
  ghost predicate Tidy(code: seq<D.Line>, k: nat, line: D.Line) {
    && (line.Label? ==> D.Where(code, line.name) == k)
    && (line.Branch? ==> D.Where(code, line.to) < |code| && k - 40 <= D.Where(code, line.to) <= k + 40)
    && (line.CallError? ==> k + 5 == D.Where(code, D.Fault))
  }

  ghost predicate TidyPiece(code: seq<D.Line>, at: nat, piece: seq<D.Line>) {
    forall j :: 0 <= j < |piece| ==> Tidy(code, at + j, piece[j])
  }

  lemma UsualIsFine(code: seq<D.Line>, k: nat)
    requires k < |code| && Usual(code[k]) && Tidy(code, k, code[k])
    ensures Fine(code, k)
  {
    hide Encodable, D.Where;
    InRows00();
    InRows20();
    InRows40();
    InRows80();
    InRowsA0();
    InRowsC0();
    InRowsE0();
  }

  /** Two pieces in a row are usual and tidy if each is. */
  lemma Joined(code: seq<D.Line>, at: nat, a: seq<D.Line>, b: seq<D.Line>)
    requires AllUsual(a) && AllUsual(b) && TidyPiece(code, at, a) && TidyPiece(code, at + |a|, b)
    ensures AllUsual(a + b) && TidyPiece(code, at, a + b)
  {
    hide Usual, Tidy;
    forall j | 0 <= j < |a + b|
      ensures Usual((a + b)[j]) && Tidy(code, at + j, (a + b)[j])
    {
      if j >= |a| { assert Tidy(code, at + |a| + (j - |a|), b[j - |a|]); }
    }
  }

  lemma WholeIsNeat(code: seq<D.Line>)
    requires AllUsual(code) && TidyPiece(code, 0, code)
    ensures Neat(code) && forall k :: 0 <= k < |code| && code[k].CallError? ==> k + 5 == D.Where(code, D.Fault)
  {
    hide Usual, Fine, D.Where;
    forall k | 0 <= k < |code| ensures Fine(code, k)
        && Tidy(code, k, code[k]) { assert Tidy(code, 0 + k, code[k]); UsualIsFine(code, k); }
  }

  lemma HeadTidy(code: seq<D.Line>)
    requires |code| >= 17 && D.Where(code, D.Nonzero) == 16 && D.Where(code, D.Fault) == 14
    ensures AllUsual(D.Head()) && TidyPiece(code, 0, D.Head())
  {
    hide D.Where;
  }

  lemma HeadCalls(code: seq<D.Line>, at: nat, head: seq<D.Line>)
    requires D.Placed(code, 0, head) && ((head == D.Head() && at == 9) || (head == N.NarrowHead(true) && at == 8)
        || (head == N.NarrowHead(false) && at == 8))
    ensures at < |code| && code[0 + at].CallError?
  {
    assert code[0 + at] == head[at];
  }

  lemma SignsTidy(code: seq<D.Line>)
    requires |code| >= 41 && D.Where(code, D.PositiveLeft) == 30 && D.Where(code, D.PositiveRight) == 40
    ensures AllUsual(D.SignLines()) && TidyPiece(code, 17, D.SignLines())
  {
    hide D.Where;
  }

  lemma LoopTidy(code: seq<D.Line>, at: nat)
    requires |code| >= at + 25 && D.LoopLabels(code, at)
    ensures AllUsual(D.LoopLines()) && TidyPiece(code, at, D.LoopLines())
  {
    hide D.Where;
  }

  lemma SetupTidy(code: seq<D.Line>, at: nat)
    ensures AllUsual(D.LoopSetup()) && TidyPiece(code, at, D.LoopSetup())
  {
    hide D.Where;
  }

  lemma BothTidy(code: seq<D.Line>, at: nat)
    requires |code| >= at + 10 && D.Where(code, D.RemainderReady) == at + 9
    ensures AllUsual(D.RemainderSign()) && TidyPiece(code, at, D.RemainderSign())
  {
    hide D.Where;
  }

  lemma FixTidy(code: seq<D.Line>, at: nat, remainder: bool)
    requires |code| == at + 12 && D.Where(code, D.ResultAt) == at + 9
    ensures AllUsual(D.ResultSign(remainder)) && TidyPiece(code, at, D.ResultSign(remainder))
  {
    hide D.Where;
  }

  lemma ResultTidy(code: seq<D.Line>, at: nat, remainder: bool)
    requires D.Where(code, D.ResultAt) == at
    ensures AllUsual(D.ResultLines(remainder)) && TidyPiece(code, at, D.ResultLines(remainder))
  {
    hide D.Where;
  }

  lemma NothingTidy(code: seq<D.Line>, at: nat)
    ensures AllUsual([]) && TidyPiece(code, at, [])
  {
  }

  /** Error is called in one place. */
  ghost predicate OneCall(code: seq<D.Line>, at: nat) {
    at < |code| && forall k :: 0 <= k < |code| ==> (code[k].CallError? <==> k == at)
  }

  /** The word routines, whatever the choice of signs and results. */
  lemma BodyIsNeat(signed: bool, remainder: bool, both: bool)
    ensures var code := D.Body(signed, remainder, both); Neat(code) && OneCall(code, 9)
  {
    hide D.Where, D.Head, D.SignLines, D.LoopSetup, D.LoopLines, D.RemainderSign, D.ResultSign, D.ResultLines,
         D.NoLabel, D.FirstAt, D.Placed,
         AllUsual, TidyPiece, Neat;
    var code := D.Body(signed, remainder, both);
    var loop := D.SetupAt(signed);
    D.LayoutHead(signed, remainder, both);
    D.LayoutLoop(signed, remainder, both);
    D.LayoutResult(signed, remainder, both);
    var a, b, c, d := D.Head(), D.Signs(signed), D.LoopSetup(), D.LoopLines();
    var e, f, g := D.Both(signed, both), D.Fix(signed, remainder), D.ResultLines(remainder);
    PieceSizes(signed, remainder, both);
    HeadTidy(code);
    assert code[0 + 9].CallError? by { HeadCalls(code, 9, D.Head()); }
    if signed { D.LayoutSigns(remainder, both); SignsTidy(code); } else { NothingTidy(code, 17); }
    Joined(code, 0, a, b);
    SetupTidy(code, loop);
    Joined(code, 0, a + b, c);
    LoopTidy(code, loop + 4);
    Joined(code, 0, a + b + c, d);
    if signed && both {
      D.LayoutBoth(remainder);
      BothTidy(code, D.BothAt(signed));
    } else {
      NothingTidy(code, D.BothAt(signed));
    }
    Joined(code, 0, a + b + c + d, e);
    if signed { FixTidy(code, D.FixAt(signed, both), remainder); } else { NothingTidy(code, D.FixAt(signed, both)); }
    Joined(code, 0, a + b + c + d + e, f);
    ResultTidy(code, D.ResultIndex(signed, both), remainder);
    Joined(code, 0, a + b + c + d + e + f, g);
    WholeIsNeat(code);
  }

  lemma PieceSizes(signed: bool, remainder: bool, both: bool)
    ensures |D.Head()| == 17 && |D.Signs(signed)| == (if signed then 24 else 0) && |D.LoopSetup()| == 4
      && |D.LoopLines()| == 25
    ensures |D.Both(signed, both)| == (if signed && both then 10 else 0)
      && |D.Fix(signed, remainder)| == (if signed then 9 else 0)
    ensures |D.ResultLines(remainder)| == 3
  {
    hide D.NoLabel, D.FirstAt;
    D.HeadLabels();
    D.SignLabels();
    D.LoopFirst();
  }

  // ----- the byte-divisor routines -----

  lemma NarrowHeadTidy(code: seq<D.Line>, word: bool)
    requires |code| >= 17 && D.Where(code, D.Nonzero) == 15 && D.Where(code, D.Fault) == 13
    ensures AllUsual(N.NarrowHead(word)) && TidyPiece(code, 0, N.NarrowHead(word))
  {
    hide D.Where;
  }

  lemma NarrowSetupTidy(code: seq<D.Line>, word: bool)
    ensures AllUsual(N.NarrowSetup(word)) && TidyPiece(code, 16, N.NarrowSetup(word))
  {
    hide D.Where;
  }

  lemma NarrowShiftTidy(code: seq<D.Line>, word: bool)
    requires D.Where(code, D.DivideLoop) == 19
    ensures AllUsual(N.NarrowShift(word)) && TidyPiece(code, 19, N.NarrowShift(word))
  {
    hide D.Where;
  }

  lemma NarrowRestTidy(code: seq<D.Line>, word: bool)
    requires |code| >= N.RestAt(word) + 14 && D.Where(code, D.DivideLoop) == 19
    requires D.Where(code, D.SubtractAt) == N.RestAt(word) + 5 && D.Where(code, D.Next) == N.RestAt(word) + 11
    ensures AllUsual(N.NarrowRest()) && TidyPiece(code, N.RestAt(word), N.NarrowRest())
  {
    hide D.Where;
  }

  lemma NarrowResultTidy(code: seq<D.Line>, at: nat, word: bool, remainder: bool)
    ensures AllUsual(N.NarrowResult(word, remainder)) && TidyPiece(code, at, N.NarrowResult(word, remainder))
  {
    hide D.Where;
  }

  lemma NarrowBodyIsNeat(word: bool, remainder: bool)
    ensures var code := N.NarrowBody(word, remainder); Neat(code) && OneCall(code, 8)
  {
    hide D.Where, N.NarrowHead, N.NarrowSetup, N.NarrowShift, N.NarrowRest, N.NarrowResult, D.NoLabel, D.FirstAt,
         D.Placed,
         AllUsual, TidyPiece, Neat;
    var code := N.NarrowBody(word, remainder);
    N.NarrowLayout(word, remainder);
    N.NarrowPieces(word, remainder, D.Next);
    var a, b, c, d, e := N.NarrowHead(word), N.NarrowSetup(word), N.NarrowShift(word), N.NarrowRest(), N.NarrowResult(word, remainder);
    NarrowHeadTidy(code, word);
    assert code[0 + 8].CallError? by { HeadCalls(code, 8, N.NarrowHead(word)); }
    NarrowSetupTidy(code, word);
    Joined(code, 0, a, b);
    NarrowShiftTidy(code, word);
    Joined(code, 0, a + b, c);
    NarrowRestTidy(code, word);
    Joined(code, 0, a + b + c, d);
    NarrowResultTidy(code, N.RestAt(word) + 14, word, remainder);
    Joined(code, 0, a + b + c + d, e);
    WholeIsNeat(code);
  }
}
