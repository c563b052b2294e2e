/** What assembled operands mean: at every instruction the final bytes hold the value its operand was written for. */
module AsmMeaning {
  import opened Wrappers
  import opened Isa
  import opened Assembler
  import opened AsmLayout
  import opened AsmForms
  import C = ConstExpr
  import Cpu
  import Flow = AsmGraph
  import R = AsmRelocate
  import Jumps = AsmJumps
  import Accept = AsmAccept
  import Run = AsmLockstep

  // ----- the final bytes of each instruction -----

  /** Where an instruction's final bytes are. */
  ghost predicate FinalAt(table: Table, i: nat, out: seq<byte>, chars: map<string, C.i32>, base: nat,
      symbols: R.Symbols)
    requires i < |table.code|
  {
    var ins := table.code[i];
    && EmitOperand(ins, table, chars).Some?
    && var e := EmitOperand(ins, table, chars).value;
       && |e.relocs| <= 1 && R.AllUsable(e.relocs, base, symbols)
       && ins.offset + Length(ins.mode) <= |out| && out[ins.offset] == ins.opcode
       && out[ins.offset + 1..ins.offset + Length(ins.mode)] == R.Final(e, base, symbols)
  }

  lemma FinalLonger(table: Table, i: nat, out: seq<byte>, more: seq<byte>, chars: map<string, C.i32>, base: nat,
      symbols: R.Symbols)
    requires i < |table.code| && FinalAt(table, i, out, chars, base, symbols)
    ensures FinalAt(table, i, out + more, chars, base, symbols)
  {
    hide EmitOperand, R.Final, R.Usable;
    var ins := table.code[i];
    assert (out + more)[ins.offset + 1..ins.offset + Length(ins.mode)]
      == out[ins.offset + 1..ins.offset + Length(ins.mode)];
  }

  lemma FinalWidth(ins: Coded, e: Emitted, base: nat, symbols: R.Symbols)
    requires R.OneReloc(ins, e) && R.AllUsable(e.relocs, base, symbols)
    ensures |R.Final(e, base, symbols)| == |Template(e.items)|
  {
    hide Template, R.RelocValue;
    if e.relocs != [] { assert e.relocs[0] in e.relocs; }
  }

  lemma FinalLast(table: Table, i: nat, before: seq<byte>, chars: map<string, C.i32>, base: nat, symbols: R.Symbols)
    requires i < |table.code| && EmitOperand(table.code[i], table, chars).Some? && |before| == table.code[i].offset
    requires !SelectsWide(table.code[i], C.Scope(table.constants, chars))
    requires R.AllUsable(EmitOperand(table.code[i], table, chars).value.relocs, base, symbols)
    ensures var e := EmitOperand(table.code[i], table, chars).value;
      |e.relocs| <= 1
        && FinalAt(table, i, before + [table.code[i].opcode] + R.Final(e, base, symbols), chars, base, symbols)
  {
    hide EmitOperand, Template, SelectsWide, R.Final, R.Usable;
    var ins := table.code[i];
    var e := EmitOperand(ins, table, chars).value;
    OperandWidth(ins, table, chars);
    R.OperandReloc(ins, table, chars);
    FinalWidth(ins, e, base, symbols);
  }

  lemma EmittedItems(table: Table, n: nat, chars: map<string, C.i32>)
    requires n < |table.code| && EmittedUpto(table, n + 1, chars).Some?
    ensures EmittedUpto(table, n, chars).Some? && EmitOperand(table.code[n], table, chars).Some?
    ensures EmittedUpto(table, n + 1, chars).value.items
      == EmittedUpto(table, n, chars).value.items + [Byte(table.code[n].opcode)] + EmitOperand(table.code[n], table, chars).value.items
  {
    hide EmitOperand;
  }

  /** The bytes put out for the first `n` instructions. */
  function Output(table: Table, n: nat, chars: map<string, C.i32>, base: nat, symbols: R.Symbols): Option<seq<byte>>
    requires n <= |table.code|
  {
    var e := EmittedUpto(table, n, chars);
    if e.None? then None
    else
      var r := R.Resolved(e.value.items, base, symbols);
      if r.None? then None else Some(r.value.out)
  }

  ghost predicate Ready(table: Table, n: nat, chars: map<string, C.i32>, base: nat, symbols: R.Symbols)
    requires n <= |table.code|
  {
    && Laid(table.code, table.size) && table.size < 0x1_0000
    && EmittedUpto(table, n, chars).Some? && NoneWide(table, n, chars)
    && R.AllUsable(EmittedUpto(table, n, chars).value.relocs, base, symbols)
  }

  lemma ReadyBefore(table: Table, n: nat, chars: map<string, C.i32>, base: nat, symbols: R.Symbols)
    requires n < |table.code| && Ready(table, n + 1, chars, base, symbols)
    ensures Ready(table, n, chars, base, symbols)
    ensures EmitOperand(table.code[n], table, chars).Some?
      && !SelectsWide(table.code[n], C.Scope(table.constants, chars))
    ensures R.AllUsable(EmitOperand(table.code[n], table, chars).value.relocs, base, symbols)
  {
    hide EmitOperand, SelectsWide, Template, Laid, R.AllUsable, EmittedUpto;
    EmittedStep(table, n, chars);
    NoneWideStep(table, n, chars);
    R.UsableParts(EmittedUpto(table, n, chars).value.relocs, EmitOperand(table.code[n], table, chars).value.relocs,
        base, symbols);
  }

  lemma OutputBefore(table: Table, n: nat, chars: map<string, C.i32>, base: nat, symbols: R.Symbols)
    requires n < |table.code| && Ready(table, n, chars, base, symbols)
    ensures var r := R.Resolved(EmittedUpto(table, n, chars).value.items, base, symbols);
      r.Some? && r.value.pending == 0 && |r.value.out| == table.code[n].offset
    ensures table.code[n].offset + 1 < 0x1_0000
    ensures Decode(table.code[n].opcode) == Some(Op(table.code[n].mnemonic, table.code[n].mode))
  {
    hide Laid, EmittedUpto, NoneWide, R.Resolved, R.Relocated, R.AllUsable, Template, Decode;
    R.BlockInStep(table, n, chars, base, symbols);
    NextOffset(table.code, table.size, n);
    R.OffsetInside(table.code, table.size, n);
  }

  /** One more instruction puts out its opcode and its final operand. */
  lemma OutputStep(table: Table, n: nat, chars: map<string, C.i32>, base: nat, symbols: R.Symbols)
    requires n < |table.code| && Ready(table, n + 1, chars, base, symbols)
    ensures Output(table, n, chars, base, symbols).Some? && EmitOperand(table.code[n], table, chars).Some?
    ensures var e := EmitOperand(table.code[n], table, chars).value;
      && |e.relocs| <= 1 && R.AllUsable(e.relocs, base, symbols)
      && Output(table, n + 1, chars, base, symbols)
           == Some(Output(table, n, chars, base, symbols).value + [table.code[n].opcode] + R.Final(e, base, symbols))
  {
    hide Laid, EmitOperand, SelectsWide, R.Resolved, R.RelocValue, R.Final, Decode, Template;
    ReadyBefore(table, n, chars, base, symbols);
    OutputBefore(table, n, chars, base, symbols);
    EmittedItems(table, n, chars);
    hide EmittedUpto, NoneWide;
    R.InstructionResolves(table.code[n], table, chars, EmittedUpto(table, n, chars).value.items, base, symbols);
  }

  lemma {:induction false} FinalBytes(table: Table, n: nat, i: nat, chars: map<string, C.i32>, base: nat,
      symbols: R.Symbols)
    requires i < n <= |table.code| && Ready(table, n, chars, base, symbols)
    ensures var out := Output(table, n, chars, base, symbols);
      out.Some? && FinalAt(table, i, out.value, chars, base, symbols)
    decreases n
  {
    hide EmitOperand, SelectsWide, Template, Output, Ready, R.RelocValue, Decode, FinalAt, R.Final;
    var k := n - 1;
    ReadyBefore(table, k, chars, base, symbols);
    OutputStep(table, k, chars, base, symbols);
    var out, opcode, operand := Output(table, k, chars, base, symbols).value, table.code[k].opcode,
        R.Final(EmitOperand(table.code[k], table, chars).value, base, symbols);
    if i < k {
      FinalBytes(table, k, i, chars, base, symbols);
      Associate(out, [opcode], operand);
      FinalLonger(table, i, out, [opcode] + operand, chars, base, symbols);
    } else {
      OutputLength(table, k, chars, base, symbols);
      FinalLast(table, k, out, chars, base, symbols);
    }
  }

  lemma OutputLength(table: Table, n: nat, chars: map<string, C.i32>, base: nat, symbols: R.Symbols)
    requires n < |table.code| && Ready(table, n, chars, base, symbols) && Output(table, n, chars, base, symbols).Some?
    ensures |Output(table, n, chars, base, symbols).value| == table.code[n].offset
  {
    hide Ready, R.Resolved, EmittedUpto, Decode;
    OutputBefore(table, n, chars, base, symbols);
  }

  // ----- what an expression stands for -----

  /** The value of a name: a constant of the block, else the address of its label, else the symbol's address. */
  ghost predicate NameValue(key: string, v: int, table: Table, base: int, symbols: R.Symbols) {
    if key in table.constants then v == table.constants[key]
    else if key in table.labels then v == base + table.labels[key]
    else key in symbols && v == symbols[key].address
  }

  ghost predicate NamesValued(m: map<string, C.i32>, table: Table, base: int, symbols: R.Symbols) {
    forall key :: key in m ==> NameValue(key, m[key], table, base, symbols)
  }

  /** The tree has the value `v` with its names valued by `m`. */
  ghost predicate Evaluates(tree: C.Tree, m: map<string, C.i32>, chars: map<string, C.i32>, v: int) {
    !C.Unresolved(tree, C.Scope(m, chars)) && C.Eval(tree, C.Scope(m, chars)) == Some(v)
  }

  /** What the body of an expression stands for when the block is loaded at `base`. */
  ghost predicate Stands(lines: seq<Line>, body: Body, ins: Coded, table: Table, chars: map<string, C.i32>, base: int,
      symbols: R.Symbols, v: int)
  {
    match body
    case Plain(tree) => exists m :: NamesValued(m, table, base, symbols) && Evaluates(tree, m, chars, v)
    case Foreign(name, plus) => C.Normalize(name) in symbols && v == symbols[C.Normalize(name)].address + plus
    case Here(plus) => v == base + ins.offset + plus
    case Ahead => NearestAfter(lines, ins.line, v - base, chars)
    case Behind => NearestBefore(lines, ins.line, v - base, chars)
  }

  /** The selected byte of a value, or all of it. */
  function Picked(s: Option<Selector>, v: int): int {
    match s
    case None => v
    case Some(Low) => v % 256
    case Some(High) => v / 256 % 256
  }

  ghost predicate Means(lines: seq<Line>, e: Expr, ins: Coded, table: Table, chars: map<string, C.i32>, base: int,
      symbols: R.Symbols, w: int)
  {
    exists v: int :: Stands(lines, e.body, ins, table, chars, base, symbols, v) && w == Picked(e.selector, v)
  }

  // ----- the term of an expression stands for the same -----

  /** A number is the value of its expression. */
  lemma NumberStands(lines: seq<Line>, e: Expr, t: Term, ins: Coded, table: Table, chars: map<string, C.i32>, base: int,
      symbols: R.Symbols)
    requires ParseExpression(e, C.Scope(table.constants, chars)) == Some(t)
    requires Numeric(t, C.Scope(table.constants, chars)).Some?
    ensures t.atom.Number? && t.addend == 0 && t.selector == e.selector
    ensures Stands(lines, e.body, ins, table, chars, base, symbols, t.atom.value)
    ensures Numeric(t, C.Scope(table.constants, chars)).value == Picked(t.selector, t.atom.value)
  {
    hide C.Normalize, C.Apply, C.Eval;
    var scope := C.Scope(table.constants, chars);
    KnownTerm(e, t, scope);
    assert NamesValued(table.constants, table, base, symbols)
      && Evaluates(e.body.tree, table.constants, chars, t.atom.value);
  }

  /** A term is a number exactly when every name of its expression is a constant. */
  lemma KnownTerm(e: Expr, t: Term, scope: C.Scope)
    requires ParseExpression(e, scope) == Some(t)
    ensures t.selector == e.selector
    ensures Numeric(t, scope).Some? <==> t.atom.Number?
    ensures t.atom.Number? ==>
      e.body.Plain? && !C.Unresolved(e.body.tree, scope) && C.Eval(e.body.tree, scope) == Some(t.atom.value)
        && t.addend == 0
    ensures t.atom.Local? ==> C.Normalize(t.atom.name) !in scope.constants
  {
    hide C.Normalize, C.Apply, C.Eval;
    if e.body.Plain? && e.body.tree.Binary? && C.Unresolved(e.body.tree, scope) {
      var u := e.body.tree;
      assert Relocatable(e.selector, u, scope.chars).Some?;
      assert !C.Unresolved(u.right, scope);
      assert C.Unresolved(u.left, scope);
    }
  }

  /** A local name with an offset stands for the name's value plus the offset. */
  lemma LocalStands(lines: seq<Line>, e: Expr, t: Term, ins: Coded, table: Table, chars: map<string, C.i32>, base: int,
      symbols: R.Symbols, at: C.i32, v: C.i32)
    requires ParseExpression(e, C.Scope(table.constants, chars)) == Some(t) && t.atom.Local?
    requires NameValue(C.Normalize(t.atom.name), at, table, base, symbols) && v == at + t.addend
    ensures t.selector == e.selector && Stands(lines, e.body, ins, table, chars, base, symbols, v)
  {
    hide C.Normalize;
    var m := map[C.Normalize(t.atom.name) := at];
    assert NamesValued(m, table, base, symbols);
    LocalEvaluates(e, t, C.Scope(table.constants, chars), m, at, v);
    assert Evaluates(e.body.tree, m, chars, v);
  }

  lemma OffsetApplied(op: C.Operator, at: C.i32, k: C.i32, v: C.i32)
    requires (op == C.Add && v == at + k) || (op == C.Sub && v == at - k)
    ensures C.Apply(op, at, k) == Some(v)
  {
  }

  lemma LocalEvaluates(e: Expr, t: Term, scope: C.Scope, m: map<string, C.i32>, at: C.i32, v: C.i32)
    requires ParseExpression(e, scope) == Some(t) && t.atom.Local? && v == at + t.addend
    requires m == map[C.Normalize(t.atom.name) := at]
    ensures t.selector == e.selector && e.body.Plain? && Evaluates(e.body.tree, m, scope.chars, v)
  {
    hide C.Normalize;
    var tree := e.body.tree;
    if tree.Binary? {
      assert Evaluates(tree.left, m, scope.chars, at);
      var k := Literal(tree.right, scope.chars).value;
      assert Evaluates(tree.right, m, scope.chars, k);
      assert C.Apply(tree.op, at, k) == Some(v) by { OffsetApplied(tree.op, at, k, v); }
      BinaryEvaluates(tree, m, scope.chars, at, k, v);
    }
  }

  lemma BinaryEvaluates(tree: C.Tree, m: map<string, C.i32>, chars: map<string, C.i32>, x: C.i32, y: C.i32, v: C.i32)
    requires tree.Binary? && Evaluates(tree.left, m, chars, x) && Evaluates(tree.right, m, chars, y)
    requires C.Apply(tree.op, x, y) == Some(v)
    ensures Evaluates(tree, m, chars, v)
  {
    hide C.Apply, C.Normalize;
  }

  // ----- the bytes put out hold the value -----

  /** The number in one or two operand bytes. */
  function Word(bytes: seq<byte>): int
    requires 1 <= |bytes| <= 2
  {
    if |bytes| == 1 then bytes[0] as int else bytes[0] as int + 256 * bytes[1] as int
  }

  /** The final operand bytes of an emitted operand hold `w`. */
  ghost predicate Holds(e: Emitted, width: nat, base: nat, symbols: R.Symbols, w: int) {
    && |e.relocs| <= 1 && R.AllUsable(e.relocs, base, symbols)
    && |R.Final(e, base, symbols)| == width && 1 <= width <= 2 && Word(R.Final(e, base, symbols)) == w
  }

  lemma PatchHolds(kind: Kind, value: nat)
    requires value < 0x1_0000
    ensures kind == Absolute16 ==> Word(R.Patch(kind, value)) == value
    ensures kind == Byte8 || kind == Low8 ==> Word(R.Patch(kind, value)) == value % 256
    ensures kind == High8 ==> Word(R.Patch(kind, value)) == value / 256
  {
  }

  /** The address a relocation points to. */
  ghost predicate Points(target: Target, base: nat, symbols: R.Symbols, at: int) {
    match target
    case Symbol(name) => C.Normalize(name) in symbols && at == symbols[C.Normalize(name)].address
    case InlineOffset(offset) => at == (base + offset) % 0x1_0000
    case AbsoluteAt(address) => at == address
  }

  /**
   * A relocation has a value exactly when what it points to is known and fits with its addend, in a byte where it has
   * to; the value is that sum.
   */
  lemma RelocationValue(r: Reloc, base: nat, symbols: R.Symbols, v: nat)
    ensures R.RelocValue(r, base, symbols) == Some(v) <==>
      Points(r.target, base, symbols, v - r.addend) && v < (if r.zeroPage || r.kind == Byte8 then 0x100 else 0x1_0000)
  {
    hide C.Normalize;
  }

  lemma UsableFits(r: Reloc, base: nat, symbols: R.Symbols)
    requires R.RelocValue(r, base, symbols).Some?
    ensures R.RelocValue(r, base, symbols).value < 0x1_0000
    ensures r.zeroPage || r.kind == Byte8 ==> R.RelocValue(r, base, symbols).value < 256
  {
    hide C.Normalize;
  }

  lemma ValueHolds(v: int, ins: Coded, base: nat, symbols: R.Symbols)
    requires Length(ins.mode) > 1 && EmitValue(v, Length(ins.mode) - 1, ins).Some?
    requires R.AllUsable(EmitValue(v, Length(ins.mode) - 1, ins).value.relocs, base, symbols)
    ensures Holds(EmitValue(v, Length(ins.mode) - 1, ins).value, Length(ins.mode) - 1, base, symbols, v)
  {
    hide Template, UseOf, NeedsZeroPage, R.LowByte, R.HighByte, R.Patch;
    var width := Length(ins.mode) - 1;
    var e := EmitValue(v, width, ins).value;
    if ins.mode == Immediate {
      TemplateOfByte(v);
    } else {
      assert e.relocs[0] in e.relocs;
      PatchHolds(e.relocs[0].kind, v);
    }
  }

  lemma InlineHolds(target: int, addend: int, ins: Coded, selector: Option<Selector>, base: nat, symbols: R.Symbols)
    requires Length(ins.mode) > 1 && EmitInline(target, addend, Length(ins.mode) - 1, ins, selector).Some?
    requires R.AllUsable(EmitInline(target, addend, Length(ins.mode) - 1, ins, selector).value.relocs, base, symbols)
    requires Length(ins.mode) == 3 ==> selector.None?
    ensures 0 <= target + addend && base + target + addend < 0x1_0000
    ensures Holds(EmitInline(target, addend, Length(ins.mode) - 1, ins, selector).value, Length(ins.mode) - 1, base, symbols,
                  Picked(selector, base + target + addend))
  {
    hide UseOf, R.LowByte, R.HighByte, R.Patch;
    var e := EmitInline(target, addend, Length(ins.mode) - 1, ins, selector).value;
    assert e.relocs[0] in e.relocs;
    PatchHolds(e.relocs[0].kind, base + target + addend);
  }

  lemma SymbolHolds(t: Term, name: string, ins: Coded, base: nat, symbols: R.Symbols)
    requires Length(ins.mode) > 1 && ins.mode != Relative && EmitSymbol(t, name, Length(ins.mode) - 1, ins).Some?
    requires R.AllUsable(EmitSymbol(t, name, Length(ins.mode) - 1, ins).value.relocs, base, symbols)
    ensures C.Normalize(name) in symbols
    ensures var v := symbols[C.Normalize(name)].address + t.addend;
      && 0 <= v < 0x1_0000
      && Holds(EmitSymbol(t, name, Length(ins.mode) - 1, ins).value, Length(ins.mode) - 1, base, symbols, Picked(t.selector, v))
  {
    hide UseOf, C.Normalize, R.LowByte, R.HighByte, R.Patch;
    var e := EmitSymbol(t, name, Length(ins.mode) - 1, ins).value;
    var r := e.relocs[0];
    assert r in e.relocs;
    UsableFits(r, base, symbols);
    PatchHolds(r.kind, R.RelocValue(r, base, symbols).value);
  }

  // ----- one operand -----

  ghost predicate LabelsWithin(t: Table) { forall key :: key in t.labels ==> t.labels[key] <= t.size }

  lemma EnterKeepsWithin(t: Table, line: Line, index: nat, chars: map<string, C.i32>)
    requires LabelsWithin(t) && Enter(t, line, index, chars).Some?
    ensures LabelsWithin(Enter(t, line, index, chars).value)
  {
    hide SelectInstruction, EnterInstruction, ParseExpression, Numeric, C.Normalize;
    match line.content
    case Empty =>
    case Define(_, _) =>
    case Code(mark, ins) =>
      var led := EnterLead(t, line.lead, index).value;
      var marked := if mark.None? then Some(led) else AddLabel(led, mark.value, led.size);
      if ins.Some? { PlaceKeepsWithin(marked.value, ins.value, index, chars); }
  }

  lemma PlaceKeepsWithin(t: Table, s: Source, index: nat, chars: map<string, C.i32>)
    requires LabelsWithin(t) && EnterInstruction(t, s, index, chars).Some?
    ensures LabelsWithin(EnterInstruction(t, s, index, chars).value)
  {
    hide SelectInstruction, C.Normalize;
  }

  lemma {:induction false} LabelsInside(lines: seq<Line>, n: nat, chars: map<string, C.i32>)
    requires n <= |lines| && Entered(lines, n, chars).Some?
    ensures LabelsWithin(Entered(lines, n, chars).value)
  {
    hide Enter;
    if n > 0 {
      LabelsInside(lines, n - 1, chars);
      EnterKeepsWithin(Entered(lines, n - 1, chars).value, lines[n - 1], n - 1, chars);
    }
  }

  /** The program a block was assembled from, and symbols it can be resolved with. */
  ghost predicate Block(lines: seq<Line>, table: Table, chars: map<string, C.i32>, symbols: R.Symbols) {
    && Entered(lines, |lines|, chars) == Some(table) && LabelsWithin(table) && table.size < 0x1_0000
    && forall key :: key in symbols ==> symbols[key].address < 0x1_0000
  }

  /** A place in the block that is not a label. */
  lemma PlaceStands(lines: seq<Line>, e: Expr, t: Term, ins: Coded, table: Table, chars: map<string, C.i32>, base: int,
      symbols: R.Symbols)
    requires Block(lines, table, chars, symbols)
    requires ParseExpression(e, C.Scope(table.constants, chars)) == Some(t)
    requires t.atom.NextAnonymous? || t.atom.LastAnonymous? || t.atom.Current?
    requires LocalTarget(t, ins, table, C.Scope(table.constants, chars)).Some?
    ensures t.selector == e.selector
    ensures Stands(lines, e.body, ins, table, chars, base, symbols,
                   base + LocalTarget(t, ins, table, C.Scope(table.constants, chars)).value)
  {
    hide Entered, NearestAfter, NearestBefore, Numeric, C.Normalize, C.Eval, C.Apply;
    match t.atom
    case NextAnonymous => NextNamed(lines, ins.line, chars, table);
    case LastAnonymous => LastNamed(lines, ins.line, chars, table);
    case Current =>
  }

  lemma MeansIntro(lines: seq<Line>, e: Expr, ins: Coded, table: Table, chars: map<string, C.i32>, base: int,
      symbols: R.Symbols, v: int)
    requires Stands(lines, e.body, ins, table, chars, base, symbols, v)
    ensures Means(lines, e, ins, table, chars, base, symbols, Picked(e.selector, v))
  {
    hide Stands;
  }

  ghost predicate OperandHolds(lines: seq<Line>, e: Expr, ins: Coded, table: Table, chars: map<string, C.i32>,
      base: int,
      symbols: R.Symbols, final: seq<byte>)
  {
    |final| == Length(ins.mode) - 1 && 1 <= |final| <= 2
      && Means(lines, e, ins, table, chars, base, symbols, Word(final))
  }

  lemma LocalHolds(lines: seq<Line>, x: Expr, t: Term, ins: Coded, table: Table, chars: map<string, C.i32>, base: nat,
      symbols: R.Symbols)
    requires Block(lines, table, chars, symbols) && Length(ins.mode) > 1 && ins.mode != Relative
    requires ParseExpression(x, C.Scope(table.constants, chars)) == Some(t) && t.atom.Local?
    requires Length(ins.mode) == 3 ==> t.selector.None?
    requires EmitTerm(t, ins, table, C.Scope(table.constants, chars)).Some?
    requires R.AllUsable(EmitTerm(t, ins, table, C.Scope(table.constants, chars)).value.relocs, base, symbols)
    ensures var e := EmitTerm(t, ins, table, C.Scope(table.constants, chars)).value;
      |e.relocs| <= 1 && OperandHolds(lines, x, ins, table, chars, base, symbols, R.Final(e, base, symbols))
  {
    hide Entered, Means, Stands, C.Normalize, R.Final, R.RelocValue, Numeric, ParseExpression, EmitInline, EmitSymbol;
    KnownTerm(x, t, C.Scope(table.constants, chars));
    var key := C.Normalize(t.atom.name);
    if key in table.labels {
      InlineHolds(table.labels[key], t.addend, ins, t.selector, base, symbols);
      LocalStands(lines, x, t, ins, table, chars, base, symbols, base + table.labels[key],
          base + table.labels[key] + t.addend);
      MeansIntro(lines, x, ins, table, chars, base, symbols, base + table.labels[key] + t.addend);
    } else {
      SymbolHolds(t, t.atom.name, ins, base, symbols);
      LocalStands(lines, x, t, ins, table, chars, base, symbols, symbols[key].address, symbols[key].address + t.addend);
      MeansIntro(lines, x, ins, table, chars, base, symbols, symbols[key].address + t.addend);
    }
  }

  lemma ForeignStands(lines: seq<Line>, x: Expr, t: Term, ins: Coded, table: Table, chars: map<string, C.i32>,
      base: int,
      symbols: R.Symbols)
    requires ParseExpression(x, C.Scope(table.constants, chars)) == Some(t) && t.atom.External?
    requires C.Normalize(t.atom.name) in symbols
    ensures t.selector == x.selector
    ensures Stands(lines, x.body, ins, table, chars, base, symbols, symbols[C.Normalize(t.atom.name)].address + t.addend)
  {
    hide C.Normalize, C.Eval, C.Apply;
  }

  /** The final bytes of an operand hold the value its expression stands for. */
  lemma TermHolds(lines: seq<Line>, x: Expr, t: Term, ins: Coded, table: Table, chars: map<string, C.i32>, base: nat,
      symbols: R.Symbols)
    requires Block(lines, table, chars, symbols) && Length(ins.mode) > 1 && ins.mode != Relative
    requires ParseExpression(x, C.Scope(table.constants, chars)) == Some(t)
    requires Length(ins.mode) == 3 && t.selector.Some? ==> Numeric(t, C.Scope(table.constants, chars)).Some?
    requires EmitTerm(t, ins, table, C.Scope(table.constants, chars)).Some?
    requires R.AllUsable(EmitTerm(t, ins, table, C.Scope(table.constants, chars)).value.relocs, base, symbols)
    ensures var e := EmitTerm(t, ins, table, C.Scope(table.constants, chars)).value;
      |e.relocs| <= 1 && OperandHolds(lines, x, ins, table, chars, base, symbols, R.Final(e, base, symbols))
  {
    hide Block, Means, Stands, C.Normalize, R.Final, R.RelocValue, Numeric, ParseExpression, EmitValue, EmitInline,
         EmitSymbol,
         LocalTarget;
    var scope := C.Scope(table.constants, chars);
    KnownTerm(x, t, scope);
    if Numeric(t, scope).Some? {
      NumberStands(lines, x, t, ins, table, chars, base, symbols);
      ValueHolds(Numeric(t, scope).value, ins, base, symbols);
      MeansIntro(lines, x, ins, table, chars, base, symbols, t.atom.value);
    } else {
      match t.atom
      case Local(_) => LocalHolds(lines, x, t, ins, table, chars, base, symbols);
      case External(name) =>
        SymbolHolds(t, name, ins, base, symbols);
        ForeignStands(lines, x, t, ins, table, chars, base, symbols);
        MeansIntro(lines, x, ins, table, chars, base, symbols, symbols[C.Normalize(name)].address + t.addend);
      case Number(_) =>
      case _ =>
        var place := LocalTarget(t, ins, table, scope).value;
        InlineHolds(place, 0, ins, t.selector, base, symbols);
        PlaceStands(lines, x, t, ins, table, chars, base, symbols);
        MeansIntro(lines, x, ins, table, chars, base, symbols, base + place);
    }
  }

  // ----- the instructions of a block -----

  /** The expression of an operand, if the form has one. */
  function Expression(operand: Operand): Option<Expr> {
    match operand
    case Nothing | A => None
    case Sharp(e) => Some(e)
    case Parens(e) => Some(e)
    case ParensX(e) => Some(e)
    case ParensY(e) => Some(e)
    case Bare(e) => Some(e)
    case BareX(e) => Some(e)
    case BareY(e) => Some(e)
  }

  lemma ExpressionParsed(ins: Coded, table: Table, chars: map<string, C.i32>)
    requires Length(ins.mode) > 1 && ins.mode != Relative && EmitOperand(ins, table, chars).Some?
    ensures var scope := C.Scope(table.constants, chars);
      && Expression(ins.operand).Some?
      && OperandTerm(ins, scope) == ParseExpression(Expression(ins.operand).value, scope)
      && OperandTerm(ins, scope).Some?
      && EmitOperand(ins, table, chars) == EmitTerm(OperandTerm(ins, scope).value, ins, table, scope)
  {
    hide ParseExpression, EmitTerm;
  }

  /** The final operand of instruction `i` holds the value of the operand's expression. */
  ghost predicate ValueAt(lines: seq<Line>, table: Table, i: nat, out: seq<byte>, chars: map<string, C.i32>, base: nat,
      symbols: R.Symbols)
    requires i < |table.code|
  {
    var ins := table.code[i];
    && ins.offset + Length(ins.mode) <= |out|
    && Expression(ins.operand).Some? && Length(ins.mode) > 1
    && Means(lines, Expression(ins.operand).value, ins, table, chars, base, symbols, Run.OperandAt(out, Listing(table.code)[i]))
  }

  lemma WordRead(out: seq<byte>, ins: Flow.Ins)
    requires ins.offset + Flow.Size(ins) <= |out| && Flow.Size(ins) > 1
    ensures Run.OperandAt(out, ins) == Word(out[ins.offset + 1..ins.offset + Flow.Size(ins)])
    ensures Flow.Size(ins) == 2 ==> Run.OperandAt(out, ins) < 256
  {
  }

  lemma OperandValue(lines: seq<Line>, table: Table, i: nat, out: seq<byte>, chars: map<string, C.i32>, base: nat,
      symbols: R.Symbols)
    requires i < |table.code| && Block(lines, table, chars, symbols)
    requires FinalAt(table, i, out, chars, base, symbols)
      && !SelectsWide(table.code[i], C.Scope(table.constants, chars))
    requires Length(table.code[i].mode) > 1 && table.code[i].mode != Relative
    ensures ValueAt(lines, table, i, out, chars, base, symbols)
  {
    hide Block, Means, C.Normalize, R.Final, R.RelocValue, Numeric, EmitTerm, ParseExpression, OperandTerm;
    var ins := table.code[i];
    ExpressionParsed(ins, table, chars);
    hide EmitOperand, Expression;
    TermHolds(lines, Expression(ins.operand).value, OperandTerm(ins, C.Scope(table.constants, chars)).value, ins, table, chars,
        base, symbols);
    WordRead(out, Listing(table.code)[i]);
  }

  ghost predicate Resolvable(lines: seq<Line>, chars: map<string, C.i32>, p: Program, base: nat, symbols: R.Symbols) {
    && Accepted(lines, chars, p) && NoneWide(p.table, |p.table.code|, chars) && p.table.size < 0x1_0000
    && (forall r :: r in p.relocs ==> R.Usable(r, base, symbols))
    && forall key :: key in symbols ==> symbols[key].address < 0x1_0000
  }

  lemma ResolvedFinal(lines: seq<Line>, chars: map<string, C.i32>, p: Program, base: nat, symbols: R.Symbols, i: nat)
    requires Resolvable(lines, chars, p, base, symbols) && i < |p.table.code|
    ensures var r := R.Resolved(p.items, base, symbols);
      r.Some? && FinalAt(p.table, i, r.value.out, chars, base, symbols)
    ensures Block(lines, p.table, chars, symbols) && !SelectsWide(p.table.code[i], C.Scope(p.table.constants, chars))
    ensures Decode(p.table.code[i].opcode) == Some(Op(p.table.code[i].mnemonic, p.table.code[i].mode))
  {
    hide Assembled, Entered, EmittedUpto, Laid, SelectsWide, Template, FinalAt, R.Resolved, R.Usable, LabelsWithin,
         Decode;
    AcceptedParts(lines, chars, p);
    LabelsInside(lines, |lines|, chars);
    assert R.AllUsable(p.relocs, base, symbols);
    FinalBytes(p.table, |p.table.code|, i, chars, base, symbols);
    NextOffset(p.table.code, p.table.size, i);
  }

  /** The mode of a coded instruction is one of those of its form. */
  lemma CodedMode(lines: seq<Line>, table: Table, i: nat, chars: map<string, C.i32>)
    requires Entered(lines, |lines|, chars) == Some(table) && i < |table.code|
    ensures FromLine(lines, chars, table.code[i])
  {
    hide Entered, FromLine;
    LinesInstructed(lines, |lines|, chars);
  }

  lemma CodedActs(lines: seq<Line>, chars: map<string, C.i32>, ins: Coded, w: Cpu.word, s: Cpu.State)
    requires FromLine(lines, chars, ins) && ins.mode != Relative && (Length(ins.mode) == 2 ==> w < 256)
    ensures ActsOn(ins.operand, ins.mode, w, s)
  {
    hide Entered, Modes, ActsOn, Decode, OpcodeFor;
    var source := lines[ins.line].content.ins.value;
    var scope := C.Scope(Entered(lines, ins.line, chars).value.constants, chars);
    NotBranch(source, scope);
    ModesAct(ins.mnemonic, source.suffix, ins.operand, scope, ins.mode, w, s);
  }

  /** Only branches get the relative mode. */
  lemma NotBranch(s: Source, scope: C.Scope)
    requires SelectInstruction(s, scope).Some? && SelectInstruction(s, scope).value.1 != Relative
    ensures !IsBranch(s.mnemonic) && Modes(s.mnemonic, s.suffix, s.operand, scope).Some?
    ensures SelectInstruction(s, scope).value.1 in Modes(s.mnemonic, s.suffix, s.operand, scope).value
  {
    hide IsBranch, Checked, Sized, Decode, OpcodeFor;
  }

  /**
   * The resolved bytes hold every instruction as it was written: at its place its opcode, and after it the value its
   * operand's expression stands for, with which the instruction's mode acts, in any state of the machine, on the byte
   * or the cell that the form of the operand names.
   */
  lemma OperandAsWritten(lines: seq<Line>, chars: map<string, C.i32>, p: Program, base: nat, symbols: R.Symbols, i: nat,
      s: Cpu.State)
    requires Resolvable(lines, chars, p, base, symbols) && i < |p.table.code| && p.table.code[i].mode != Relative
    ensures var ins, r := p.table.code[i], R.Resolved(p.items, base, symbols);
      && r.Some? && ins.offset + Length(ins.mode) <= |r.value.out|
      && Decode(r.value.out[ins.offset]) == Some(Op(ins.mnemonic, ins.mode))
      && FromLine(lines, chars, ins)
      && ActsOn(ins.operand, ins.mode, Run.OperandAt(r.value.out, Listing(p.table.code)[i]), s)
      && (Length(ins.mode) > 1 ==> ValueAt(lines, p.table, i, r.value.out, chars, base, symbols))
  {
    hide Resolvable, ActsOn, ValueAt, SelectsWide, EmitOperand, R.Resolved, R.Final, R.RelocValue, Entered, FromLine,
         Decode;
    ResolvedFinal(lines, chars, p, base, symbols, i);
    var ins, out := p.table.code[i], R.Resolved(p.items, base, symbols).value.out;
    CodedMode(lines, p.table, i, chars);
    if Length(ins.mode) > 1 {
      OperandValue(lines, p.table, i, out, chars, base, symbols);
      WordRead(out, Listing(p.table.code)[i]);
    }
    CodedActs(lines, chars, ins, Run.OperandAt(out, Listing(p.table.code)[i]), s);
  }

  // ----- branches -----

  /** Where a branch is written to go, as an offset in the block; a selector counts only for a number. */
  ghost predicate GoesTo(lines: seq<Line>, x: Expr, ins: Coded, table: Table, chars: map<string, C.i32>, place: int) {
    exists v: int :: Stands(lines, x.body, ins, table, chars, 0, map[], v)
      && place == if x.body.Plain? && !C.Unresolved(x.body.tree, C.Scope(table.constants, chars)) then Picked(x.selector, v) else v
  }

  lemma TargetStands(lines: seq<Line>, x: Expr, t: Term, ins: Coded, table: Table, chars: map<string, C.i32>)
    requires Block(lines, table, chars, map[]) && ParseExpression(x, C.Scope(table.constants, chars)) == Some(t)
    requires LocalTarget(t, ins, table, C.Scope(table.constants, chars)).Some?
    requires -0x1_0000 < LocalTarget(t, ins, table, C.Scope(table.constants, chars)).value < 0x2_0000
    ensures GoesTo(lines, x, ins, table, chars, LocalTarget(t, ins, table, C.Scope(table.constants, chars)).value)
  {
    hide Stands, C.Normalize, Numeric, ParseExpression, Entered;
    var scope := C.Scope(table.constants, chars);
    var place := LocalTarget(t, ins, table, scope).value;
    KnownTerm(x, t, scope);
    UnknownTerm(x, t, scope);
    match t.atom
    case Number(_) => NumberStands(lines, x, t, ins, table, chars, 0, map[]);
    case Local(name) => LocalStands(lines, x, t, ins, table, chars, 0, map[], table.labels[C.Normalize(name)], place);
    case External(_) =>
    case _ =>
      hide Block;
      PlaceStands(lines, x, t, ins, table, chars, 0, map[]);
      assert place == 0 + place;
  }

  lemma UnknownTerm(x: Expr, t: Term, scope: C.Scope)
    requires ParseExpression(x, scope) == Some(t)
    ensures t.atom.Number? <==> x.body.Plain? && !C.Unresolved(x.body.tree, scope)
  {
    hide C.Normalize, C.Apply, C.Eval, C.Unresolved;
  }

  /** The expression a branch goes to; a lone A is a name there. */
  function BranchExpression(operand: Operand): Option<Expr> {
    match operand
    case A => Some(Expr(None, Plain(C.Name("A"))))
    case Bare(e) => Some(e)
    case _ => None
  }

  lemma BranchParsed(ins: Coded, table: Table, chars: map<string, C.i32>)
    requires ins.mode == Relative && EmitOperand(ins, table, chars).Some?
    ensures var scope := C.Scope(table.constants, chars);
      && BranchExpression(ins.operand).Some?
      && ParseExpression(BranchExpression(ins.operand).value, scope).Some?
      && EmitOperand(ins, table, chars)
           == EmitBranch(ParseExpression(BranchExpression(ins.operand).value, scope).value, ins, table, scope)
  {
    hide ParseExpression, EmitBranch;
  }

  /** The displacement in the final bytes is the one emitted. */
  lemma BranchRead(table: Table, i: nat, out: seq<byte>, chars: map<string, C.i32>, base: nat, symbols: R.Symbols)
    requires i < |table.code| && FinalAt(table, i, out, chars, base, symbols) && table.code[i].mode == Relative
    ensures var ins, scope := table.code[i], C.Scope(table.constants, chars);
      && ins.offset + 1 < |out| && BranchExpression(ins.operand).Some?
      && var x := BranchExpression(ins.operand).value;
         && ParseExpression(x, scope).Some?
         && LocalTarget(ParseExpression(x, scope).value, ins, table, scope) == Some(Flow.BranchTarget(out, Listing(table.code)[i]))
  {
    hide EmitOperand, R.RelocValue, LocalTarget, EmitBranch, ParseExpression, Template, Decode, BranchExpression;
    var ins, scope := table.code[i], C.Scope(table.constants, chars);
    BranchParsed(ins, table, chars);
    var t := ParseExpression(BranchExpression(ins.operand).value, scope).value;
    BranchByte(t, ins, table, scope);
    NoBranchReloc(t, ins, table, scope);
    assert out[ins.offset + 1] == out[ins.offset + 1..ins.offset + 2][0];
  }

  lemma BranchValue(lines: seq<Line>, table: Table, i: nat, out: seq<byte>, chars: map<string, C.i32>, base: nat,
      symbols: R.Symbols)
    requires i < |table.code| && Block(lines, table, chars, symbols) && table.code[i].mode == Relative
    requires FinalAt(table, i, out, chars, base, symbols)
    ensures table.code[i].offset + 1 < |out| && BranchExpression(table.code[i].operand).Some?
    ensures GoesTo(lines, BranchExpression(table.code[i].operand).value, table.code[i], table, chars,
                   Flow.BranchTarget(out, Listing(table.code)[i]))
  {
    hide FinalAt, GoesTo, LocalTarget, ParseExpression, Block, BranchExpression;
    BranchRead(table, i, out, chars, base, symbols);
    BlockInside(lines, table, chars, symbols, i);
    var x := BranchExpression(table.code[i].operand).value;
    TargetStands(lines, x, ParseExpression(x, C.Scope(table.constants, chars)).value, table.code[i], table, chars);
  }

  /** The resolved bytes hold every branch as it was written: read back, it goes where its operand says. */
  lemma BranchAsWritten(lines: seq<Line>, chars: map<string, C.i32>, p: Program, base: nat, symbols: R.Symbols, i: nat)
    requires Resolvable(lines, chars, p, base, symbols) && i < |p.table.code| && p.table.code[i].mode == Relative
    ensures var ins, r := p.table.code[i], R.Resolved(p.items, base, symbols);
      && r.Some? && ins.offset + 2 <= |r.value.out|
      && Decode(r.value.out[ins.offset]) == Some(Op(ins.mnemonic, Relative))
      && FromLine(lines, chars, ins)
      && BranchExpression(ins.operand).Some?
      && GoesTo(lines, BranchExpression(ins.operand).value, ins, p.table, chars,
                Flow.BranchTarget(r.value.out, Listing(p.table.code)[i]))
  {
    hide Resolvable, GoesTo, SelectsWide, R.Resolved, Entered, FromLine, Decode, EmitOperand, R.Final, R.RelocValue,
         BranchExpression;
    ResolvedFinal(lines, chars, p, base, symbols, i);
    var out := R.Resolved(p.items, base, symbols).value.out;
    CodedMode(lines, p.table, i, chars);
    BranchValue(lines, p.table, i, out, chars, base, symbols);
  }

  lemma NoBranchReloc(t: Term, ins: Coded, table: Table, scope: C.Scope)
    requires EmitBranch(t, ins, table, scope).Some?
    ensures EmitBranch(t, ins, table, scope).value.relocs == []
  {
    hide LocalTarget;
  }

  lemma BlockInside(lines: seq<Line>, table: Table, chars: map<string, C.i32>, symbols: R.Symbols, i: nat)
    requires Block(lines, table, chars, symbols) && i < |table.code|
    ensures Block(lines, table, chars, map[]) && table.code[i].offset < 0x1_0000
  {
    hide Entered, LabelsWithin, Laid, Decode;
    EnteredLaid(lines, |lines|, chars);
    R.OffsetInside(table.code, table.size, i);
  }

  // ----- jumps -----

  /** The name an expression of a name and an offset is about. */
  function LeadName(t: C.Tree): Option<string> {
    match t
    case Name(name) => Some(name)
    case Binary(_, left, _) => if left.Name? then Some(left.name) else None
    case _ => None
  }

  /** The expression is a place in the block: one of its labels, an anonymous label, or the instruction itself. */
  predicate IsPlace(x: Expr, table: Table) {
    match x.body
    case Plain(tree) =>
      && LeadName(tree).Some?
      && C.Normalize(LeadName(tree).value) in table.labels && C.Normalize(LeadName(tree).value) !in table.constants
    case Foreign(_, _) => false
    case Here(_) | Ahead | Behind => true
  }

  predicate JumpsToPlace(ins: Coded, table: Table) {
    && ins.mnemonic == JMP && ins.mode == Absolute
    && Expression(ins.operand).Some? && IsPlace(Expression(ins.operand).value, table)
  }

  lemma PlaceTerm(x: Expr, t: Term, table: Table, chars: map<string, C.i32>)
    requires ParseExpression(x, C.Scope(table.constants, chars)) == Some(t)
    ensures IsPlace(x, table) <==>
      || (t.atom.Local? && C.Normalize(t.atom.name) in table.labels)
      || t.atom.NextAnonymous? || t.atom.LastAnonymous? || t.atom.Current?
  {
    hide C.Normalize, C.Apply, C.Eval;
    KnownTerm(x, t, C.Scope(table.constants, chars));
  }

  lemma OperandEmitted(lines: seq<Line>, chars: map<string, C.i32>, p: Program, i: nat)
    requires Accepted(lines, chars, p) && i < |p.table.code|
    ensures EmitOperand(p.table.code[i], p.table, chars).Some?
  {
    hide Entered, EmitOperand;
    if EmitOperand(p.table.code[i], p.table, chars).None? {
      assert EmittedUpto(p.table, i + 1, chars).None?;
      StaysUnemitted(p.table, i + 1, |p.table.code|, chars);
    }
  }

  lemma JumpIsLocal(ins: Coded, table: Table, chars: map<string, C.i32>)
    requires EmitOperand(ins, table, chars).Some?
    ensures Jumps.LocalJump(ins, table, chars) <==> JumpsToPlace(ins, table)
    ensures Jumps.LocalJump(ins, table, chars) ==>
      var scope := C.Scope(table.constants, chars);
      var t := ParseExpression(Expression(ins.operand).value, scope);
      && t.Some? && t == OperandTerm(ins, scope) && LocalTarget(t.value, ins, table, scope).Some?
      && 0 <= LocalTarget(t.value, ins, table, scope).value < 0x1_0000
  {
    hide ParseExpression, Numeric, IsPlace, C.Normalize, OperandTerm, EmitBranch, EmitSymbol, EmitValue, EmitOperand;
    if ins.mnemonic == JMP && ins.mode == Absolute {
      var scope := C.Scope(table.constants, chars);
      ExpressionParsed(ins, table, chars);
      hide Expression;
      KnownTerm(Expression(ins.operand).value, OperandTerm(ins, scope).value, scope);
      PlaceTerm(Expression(ins.operand).value, OperandTerm(ins, scope).value, table, chars);
    }
  }

  /** The instruction has a target exactly when it is such a jump, and then the place it is written to. */
  ghost predicate JumpGiven(lines: seq<Line>, table: Table, i: nat, chars: map<string, C.i32>, targets: map<nat, nat>)
    requires i < |table.code|
  {
    var ins := table.code[i];
    && (ins.offset + 1 in targets <==> JumpsToPlace(ins, table))
    && (JumpsToPlace(ins, table) ==>
          Stands(lines, Expression(ins.operand).value.body, ins, table, chars, 0, map[], targets[ins.offset + 1]))
  }

  /**
   * The stack analysis of an accepted block is given a target exactly for the direct jumps written to a place in the
   * block, and the target is that place.
   */
  lemma JumpAsWritten(lines: seq<Line>, chars: map<string, C.i32>, p: Program, i: nat)
    requires Accepted(lines, chars, p) && p.table.size < 0x1_0000 && i < |p.table.code|
    ensures JumpGiven(lines, p.table, i, chars, Accept.ControlTargets(p.relocs))
    ensures forall at :: at in Accept.ControlTargets(p.relocs) ==> JumpOperand(p.table, at)
  {
    hide Assembled, Entered, Stands, EmitOperand, ParseExpression, OperandTerm, LocalTarget, IsPlace,
         Accept.ControlTargets,
         Jumps.LocalJump, LabelsWithin, Expression;
    var ins := p.table.code[i];
    AcceptedParts(lines, chars, p);
    LabelsInside(lines, |lines|, chars);
    OperandEmitted(lines, chars, p, i);
    Jumps.JumpsKnown(lines, chars, p, i);
    JumpIsLocal(ins, p.table, chars);
    if Jumps.LocalJump(ins, p.table, chars) { LocalStandsAt(lines, chars, p.table, ins); }
    hide JumpsToPlace;
    forall at | at in Accept.ControlTargets(p.relocs)
      ensures JumpOperand(p.table, at)
    {
      TargetOfJump(lines, chars, p, at);
    }
  }

  /** The offset is that of the operand of such a jump. */
  ghost predicate JumpOperand(table: Table, at: nat) {
    exists j :: 0 <= j < |table.code| && JumpsToPlace(table.code[j], table) && at == table.code[j].offset + 1
  }

  lemma TargetOfJump(lines: seq<Line>, chars: map<string, C.i32>, p: Program, at: nat)
    requires Accepted(lines, chars, p) && Jumps.FromJump(p.table, |p.table.code|, chars, at)
    ensures JumpOperand(p.table, at)
  {
    hide Assembled, JumpsToPlace, Jumps.LocalJump, EmitOperand;
    var j :| 0 <= j < |p.table.code| && Jumps.LocalJump(p.table.code[j], p.table, chars)
      && at == p.table.code[j].offset + 1;
    OperandEmitted(lines, chars, p, j);
    JumpIsLocal(p.table.code[j], p.table, chars);
  }

  lemma LocalStandsAt(lines: seq<Line>, chars: map<string, C.i32>, table: Table, ins: Coded)
    requires Block(lines, table, chars, map[]) && EmitOperand(ins, table, chars).Some?
      && Jumps.LocalJump(ins, table, chars)
    ensures Expression(ins.operand).Some?
    ensures var t := ParseExpression(Expression(ins.operand).value, C.Scope(table.constants, chars));
      && t.Some? && LocalTarget(t.value, ins, table, C.Scope(table.constants, chars)).Some?
      && Stands(lines, Expression(ins.operand).value.body, ins, table, chars, 0, map[],
                LocalTarget(t.value, ins, table, C.Scope(table.constants, chars)).value)
  {
    hide Block, Stands, EmitOperand, ParseExpression, Numeric, LocalTarget, IsPlace, C.Normalize;
    JumpIsLocal(ins, table, chars);
    var scope := C.Scope(table.constants, chars);
    var x := Expression(ins.operand).value;
    hide Expression, OperandTerm;
    var t := ParseExpression(x, scope).value;
    TargetStands(lines, x, t, ins, table, chars);
    KnownTerm(x, t, scope);
    UnknownTerm(x, t, scope);
    hide LocalTarget;
  }

  // ----- an expression stands for one value -----

  lemma AfterOnce(lines: seq<Line>, line: nat, chars: map<string, C.i32>, table: Table, place: int)
    requires Entered(lines, |lines|, chars) == Some(table)
    ensures NearestAfter(lines, line, place, chars) <==> FirstAfter(table.anonymous, line) == Some(place)
  {
    hide Entered, Marks, AnonymousAt, Listed;
    var list := table.anonymous;
    AnonymousListed(lines, |lines|, chars);
    if FirstAfter(list, line).Some? { NextNamed(lines, line, chars, table); }
    if NearestAfter(lines, line, place, chars) {
      var k :| line < k && Marks(lines, k, place, chars) && forall m :: line < m < k ==> !AnonymousAt(lines, m);
      MarksAnonymous(lines, k, place, chars);
      ListedAfter(list, k, line);
      var first := FirstAfter(list, line).value;
      var j :| line < j && Marks(lines, j, first, chars) && forall m :: line < m < j ==> !AnonymousAt(lines, m);
      MarksAnonymous(lines, j, first, chars);
      MarksOnce(lines, k, place, first, chars);
    }
  }

  lemma MarksAnonymous(lines: seq<Line>, k: nat, place: int, chars: map<string, C.i32>)
    requires Marks(lines, k, place, chars)
    ensures AnonymousAt(lines, k) && k < |lines|
  {
    hide Entered;
  }

  lemma MarksOnce(lines: seq<Line>, k: nat, a: int, b: int, chars: map<string, C.i32>)
    requires Marks(lines, k, a, chars) && Marks(lines, k, b, chars)
    ensures a == b
  {
    hide Entered;
  }

  lemma {:induction false} ListedAfter(list: seq<(nat, nat)>, k: nat, line: nat)
    requires Listed(list, k) && line < k
    ensures FirstAfter(list, line).Some?
  {
    if list[0].0 <= line {
      var j :| 0 <= j < |list| && list[j].0 == k;
      assert list[1..][j - 1].0 == k;
      ListedAfter(list[1..], k, line);
    }
  }

  lemma {:induction false} ListedBefore(list: seq<(nat, nat)>, k: nat, line: nat)
    requires Listed(list, k) && k < line
    ensures LastBefore(list, line).Some?
  {
    var n := |list| - 1;
    if list[n].0 >= line {
      var j :| 0 <= j < |list| && list[j].0 == k;
      assert list[..n][j].0 == k;
      ListedBefore(list[..n], k, line);
    }
  }

  lemma BeforeOnce(lines: seq<Line>, line: nat, chars: map<string, C.i32>, table: Table, place: int)
    requires Entered(lines, |lines|, chars) == Some(table)
    ensures NearestBefore(lines, line, place, chars) <==> LastBefore(table.anonymous, line) == Some(place)
  {
    hide Entered, Marks, AnonymousAt, Listed;
    var list := table.anonymous;
    AnonymousListed(lines, |lines|, chars);
    if LastBefore(list, line).Some? { LastNamed(lines, line, chars, table); }
    if NearestBefore(lines, line, place, chars) {
      var k :| 0 <= k < line && Marks(lines, k, place, chars) && forall m :: k < m < line ==> !AnonymousAt(lines, m);
      MarksAnonymous(lines, k, place, chars);
      ListedBefore(list, k, line);
      var last := LastBefore(list, line).value;
      var j :| 0 <= j < line && Marks(lines, j, last, chars) && forall m :: j < m < line ==> !AnonymousAt(lines, m);
      MarksAnonymous(lines, j, last, chars);
      MarksOnce(lines, k, place, last, chars);
    }
  }

  /** A name and an offset have the value of the name, moved by the offset. */
  lemma LocalOnce(x: Expr, t: Term, scope: C.Scope, m: map<string, C.i32>, v: int)
    requires ParseExpression(x, scope) == Some(t) && t.atom.Local? && x.body.Plain?
    requires Evaluates(x.body.tree, m, scope.chars, v)
    ensures C.Normalize(t.atom.name) in m && v == m[C.Normalize(t.atom.name)] + t.addend
  {
    hide C.Normalize;
    var tree := x.body.tree;
    if tree.Binary? {
      var k := Literal(tree.right, scope.chars).value;
      assert C.Eval(tree.right, C.Scope(m, scope.chars)) == Some(k);
      assert C.Eval(tree.left, C.Scope(m, scope.chars)).Some?;
      OffsetOnly(tree, m, scope.chars, k, v);
    }
  }

  lemma OffsetOnly(tree: C.Tree, m: map<string, C.i32>, chars: map<string, C.i32>, k: int, v: int)
    requires tree.Binary? && tree.left.Name? && (tree.op == C.Add || tree.op == C.Sub)
    requires Evaluates(tree, m, chars, v) && C.Eval(tree.right, C.Scope(m, chars)) == Some(k)
    ensures C.Normalize(tree.left.name) in m
    ensures v == m[C.Normalize(tree.left.name)] + if tree.op == C.Add then k else -k
  {
    hide C.Normalize;
    assert !C.Unresolved(tree.left, C.Scope(m, chars));
    assert C.Eval(tree.left, C.Scope(m, chars)) == Some(m[C.Normalize(tree.left.name)]);
    assert C.Apply(tree.op, m[C.Normalize(tree.left.name)], k) == Some(v);
  }

  /** Where a place in the block is: just what the assembler resolves it to. */
  lemma PlaceOnce(lines: seq<Line>, x: Expr, t: Term, ins: Coded, table: Table, chars: map<string, C.i32>, v: int)
    requires Block(lines, table, chars, map[]) && ParseExpression(x, C.Scope(table.constants, chars)) == Some(t)
    requires !t.atom.Number? && Stands(lines, x.body, ins, table, chars, 0, map[], v)
    ensures LocalTarget(t, ins, table, C.Scope(table.constants, chars)) == Some(v)
  {
    hide Entered, LabelsWithin, NearestAfter, NearestBefore, C.Normalize, Numeric, Evaluates;
    var scope := C.Scope(table.constants, chars);
    KnownTerm(x, t, scope);
    match x.body
    case Plain(tree) =>
      var m :| NamesValued(m, table, 0, map[]) && Evaluates(tree, m, chars, v);
      UnknownTerm(x, t, scope);
      LocalIfUnknown(x, t, scope);
      LocalOnce(x, t, scope, m, v);
    case Foreign(_, _) =>
    case Here(_) =>
    case Ahead => AfterOnce(lines, ins.line, chars, table, v);
    case Behind => BeforeOnce(lines, ins.line, chars, table, v);
  }

  lemma LocalIfUnknown(x: Expr, t: Term, scope: C.Scope)
    requires ParseExpression(x, scope) == Some(t) && x.body.Plain? && !t.atom.Number?
    ensures t.atom.Local?
  {
    hide C.Normalize, C.Eval, C.Unresolved;
  }

  // ----- what is accepted -----

  predicate IsKnown(x: Expr, table: Table, chars: map<string, C.i32>) {
    x.body.Plain? && !C.Unresolved(x.body.tree, C.Scope(table.constants, chars))
  }

  /** The expression is a place in the block, and the place has an address of its own. */
  ghost predicate PlaceFits(lines: seq<Line>, x: Expr, ins: Coded, table: Table, chars: map<string, C.i32>) {
    exists v: int :: 0 <= v < 0x1_0000 && Stands(lines, x.body, ins, table, chars, 0, map[], v)
  }

  /**
   * What may be the operand of one or two bytes: a number that fits, a place in the block, of which one byte holds only
   * a selected half, or a symbol, of which two bytes hold no half.
   */
  ghost predicate OperandFits(lines: seq<Line>, x: Expr, ins: Coded, table: Table, chars: map<string, C.i32>) {
    var scope, wide := C.Scope(table.constants, chars), Length(ins.mode) == 3;
    && Readable(x, scope)
    && if IsKnown(x, table, chars) then
         0 <= Picked(x.selector, C.Eval(x.body.tree, scope).value) < (if wide then 0x1_0000 else 0x100)
       else if IsPlace(x, table) then (wide || x.selector.Some?) && PlaceFits(lines, x, ins, table, chars)
       else !wide || x.selector.None?
  }

  /** A branch reaches the place it is written to. */
  ghost predicate BranchFits(lines: seq<Line>, x: Expr, ins: Coded, table: Table, chars: map<string, C.i32>) {
    && Readable(x, C.Scope(table.constants, chars))
    && exists place: int :: ins.offset - 126 <= place < ins.offset + 130 && GoesTo(lines, x, ins, table, chars, place)
  }

  lemma NumberFits(x: Expr, t: Term, ins: Coded, table: Table, chars: map<string, C.i32>)
    requires ParseExpression(x, C.Scope(table.constants, chars)) == Some(t) && t.atom.Number?
    requires Length(ins.mode) > 1 && ins.mode != Relative
    ensures EmitTerm(t, ins, table, C.Scope(table.constants, chars)).Some? <==>
      0 <= Picked(x.selector, t.atom.value) < if Length(ins.mode) == 3 then 0x1_0000 else 0x100
  {
    hide ParseExpression, UseOf, NeedsZeroPage;
    KnownTerm(x, t, C.Scope(table.constants, chars));
    NumberPicked(t, C.Scope(table.constants, chars));
  }

  lemma NumberPicked(t: Term, scope: C.Scope)
    requires t.atom.Number? && t.addend == 0
    ensures Numeric(t, scope) == Some(Picked(t.selector, t.atom.value))
  {
  }

  lemma PlaceEmits(x: Expr, t: Term, ins: Coded, table: Table, chars: map<string, C.i32>)
    requires ParseExpression(x, C.Scope(table.constants, chars)) == Some(t) && !t.atom.Number?
    requires Length(ins.mode) > 1 && ins.mode != Relative && IsPlace(x, table)
    ensures var place := LocalTarget(t, ins, table, C.Scope(table.constants, chars));
      EmitTerm(t, ins, table, C.Scope(table.constants, chars)).Some? <==>
        place.Some? && 0 <= place.value < 0x1_0000 && (Length(ins.mode) == 3 || x.selector.Some?)
  {
    hide ParseExpression, Numeric, IsPlace, C.Normalize, UseOf, KindOf, FirstAfter, LastBefore;
    KnownTerm(x, t, C.Scope(table.constants, chars));
    PlaceTerm(x, t, table, chars);
  }

  lemma SymbolEmits(x: Expr, t: Term, ins: Coded, table: Table, chars: map<string, C.i32>)
    requires ParseExpression(x, C.Scope(table.constants, chars)) == Some(t) && !t.atom.Number?
    requires Length(ins.mode) > 1 && ins.mode != Relative && !IsPlace(x, table)
    ensures EmitTerm(t, ins, table, C.Scope(table.constants, chars)).Some? <==> Length(ins.mode) == 2 || x.selector.None?
  {
    hide ParseExpression, Numeric, IsPlace, C.Normalize, UseOf, KindOf, NeedsZeroPage, LocalTarget;
    KnownTerm(x, t, C.Scope(table.constants, chars));
    PlaceTerm(x, t, table, chars);
  }

  lemma PlaceStandsOnce(lines: seq<Line>, x: Expr, t: Term, ins: Coded, table: Table, chars: map<string, C.i32>)
    requires Block(lines, table, chars, map[]) && ParseExpression(x, C.Scope(table.constants, chars)) == Some(t)
    requires !t.atom.Number?
    ensures var place := LocalTarget(t, ins, table, C.Scope(table.constants, chars));
      PlaceFits(lines, x, ins, table, chars) <==> place.Some? && 0 <= place.value < 0x1_0000
  {
    hide Block, Stands, ParseExpression, LocalTarget;
    var place := LocalTarget(t, ins, table, C.Scope(table.constants, chars));
    UnknownTerm(x, t, C.Scope(table.constants, chars));
    if place.Some? && 0 <= place.value < 0x1_0000 { TargetStands(lines, x, t, ins, table, chars); }
    if v: int :| 0 <= v < 0x1_0000 && Stands(lines, x.body, ins, table, chars, 0, map[], v) {
      PlaceOnce(lines, x, t, ins, table, chars, v);
    }
  }

  lemma TermFits(lines: seq<Line>, x: Expr, ins: Coded, table: Table, chars: map<string, C.i32>)
    requires Block(lines, table, chars, map[]) && Length(ins.mode) > 1 && ins.mode != Relative
    ensures var t := ParseExpression(x, C.Scope(table.constants, chars));
      t.Some? && EmitTerm(t.value, ins, table, C.Scope(table.constants, chars)).Some? <==>
        OperandFits(lines, x, ins, table, chars)
  {
    hide Block, ParseExpression, EmitTerm, IsPlace, PlaceFits, Readable, Picked, LocalTarget;
    var scope := C.Scope(table.constants, chars);
    ReadableExactly(x, scope);
    if ParseExpression(x, scope).Some? {
      var t := ParseExpression(x, scope).value;
      KnownTerm(x, t, scope);
      UnknownTerm(x, t, scope);
      if t.atom.Number? {
        NumberFits(x, t, ins, table, chars);
      } else if IsPlace(x, table) {
        PlaceEmits(x, t, ins, table, chars);
        PlaceStandsOnce(lines, x, t, ins, table, chars);
      } else {
        SymbolEmits(x, t, ins, table, chars);
      }
    }
  }

  lemma BranchTermFits(lines: seq<Line>, x: Expr, ins: Coded, table: Table, chars: map<string, C.i32>)
    requires Block(lines, table, chars, map[]) && ins.mode == Relative && ins.offset < 0x1_0000
    ensures var t := ParseExpression(x, C.Scope(table.constants, chars));
      t.Some? && EmitBranch(t.value, ins, table, C.Scope(table.constants, chars)).Some? <==> BranchFits(lines, x, ins, table, chars)
  {
    hide Block, Stands, ParseExpression, Readable, LocalTarget, GoesTo;
    var scope := C.Scope(table.constants, chars);
    ReadableExactly(x, scope);
    if ParseExpression(x, scope).Some? {
      var t := ParseExpression(x, scope).value;
      var target := LocalTarget(t, ins, table, scope);
      if target.Some? && ins.offset - 126 <= target.value < ins.offset + 130 { TargetStands(lines, x, t, ins, table, chars); }
      if place: int :| ins.offset - 126 <= place < ins.offset + 130 && GoesTo(lines, x, ins, table, chars, place) {
        TargetOnce(lines, x, t, ins, table, chars, place);
      }
    }
  }

  lemma TargetOnce(lines: seq<Line>, x: Expr, t: Term, ins: Coded, table: Table, chars: map<string, C.i32>, place: int)
    requires Block(lines, table, chars, map[]) && ParseExpression(x, C.Scope(table.constants, chars)) == Some(t)
    requires GoesTo(lines, x, ins, table, chars, place)
    ensures LocalTarget(t, ins, table, C.Scope(table.constants, chars)) == Some(place)
  {
    hide Block, Stands, ParseExpression, LocalTarget, Picked;
    var scope := C.Scope(table.constants, chars);
    KnownTerm(x, t, scope);
    UnknownTerm(x, t, scope);
    var v: int :| Stands(lines, x.body, ins, table, chars, 0, map[], v) && place == if IsKnown(x, table, chars) then Picked(x.selector, v) else v;
    if t.atom.Number? {
      NumberOnce(lines, x, t, ins, table, chars, v);
      NumberPicked(t, scope);
      NumberGoes(t, ins, table, scope);
      assert IsKnown(x, table, chars);
      assert place == Picked(t.selector, t.atom.value);
    } else {
      assert !IsKnown(x, table, chars);
      PlaceOnce(lines, x, t, ins, table, chars, v);
      assert place == v;
    }
  }

  lemma NumberGoes(t: Term, ins: Coded, table: Table, scope: C.Scope)
    requires t.atom.Number? && t.addend == 0
    ensures LocalTarget(t, ins, table, scope) == if Numeric(t, scope).Some? then Some(Numeric(t, scope).value as int) else None
  {
    hide Numeric;
  }

  /** An expression whose names are all constants has the value of these. */
  lemma NumberOnce(lines: seq<Line>, x: Expr, t: Term, ins: Coded, table: Table, chars: map<string, C.i32>, v: int)
    requires ParseExpression(x, C.Scope(table.constants, chars)) == Some(t) && t.atom.Number?
    requires Stands(lines, x.body, ins, table, chars, 0, map[], v)
    ensures v == t.atom.value
  {
    hide C.Normalize, NameValue, NearestAfter, NearestBefore, ParseExpression;
    var scope := C.Scope(table.constants, chars);
    KnownTerm(x, t, scope);
    var m :| NamesValued(m, table, 0, map[]) && Evaluates(x.body.tree, m, chars, v);
    SameValue(x.body.tree, m, table, chars);
  }

  lemma {:induction false} SameValue(tree: C.Tree, m: map<string, C.i32>, table: Table, chars: map<string, C.i32>)
    requires NamesValued(m, table, 0, map[]) && !C.Unresolved(tree, C.Scope(m, chars))
    requires !C.Unresolved(tree, C.Scope(table.constants, chars))
    ensures C.Eval(tree, C.Scope(m, chars)) == C.Eval(tree, C.Scope(table.constants, chars))
    decreases tree
  {
    hide C.Normalize, C.Apply, C.Negate;
    match tree
    case Numeral(_, _) =>
    case Char(_) =>
    case Name(name) => assert NameValue(C.Normalize(name), m[C.Normalize(name)], table, 0, map[]);
    case Group(inner) => SameValue(inner, m, table, chars);
    case Prefixed(_, operand) => SameValue(operand, m, table, chars);
    case Binary(_, left, right) =>
      SameValue(left, m, table, chars);
      SameValue(right, m, table, chars);
  }

  /** What pass two may be given for an instruction. */
  ghost predicate Encodable(lines: seq<Line>, ins: Coded, table: Table, chars: map<string, C.i32>) {
    if Length(ins.mode) == 1 then true
    else if ins.mode == Relative then
      BranchExpression(ins.operand).Some? && BranchFits(lines, BranchExpression(ins.operand).value, ins, table, chars)
    else Expression(ins.operand).Some? && OperandFits(lines, Expression(ins.operand).value, ins, table, chars)
  }

  lemma OperandRead(ins: Coded, table: Table, chars: map<string, C.i32>)
    requires Length(ins.mode) > 1
    ensures var x, scope := if ins.mode == Relative then BranchExpression(ins.operand) else Expression(ins.operand),
          C.Scope(table.constants, chars);
      EmitOperand(ins, table, chars) ==
        if x.None? || ParseExpression(x.value, scope).None? then None
        else if ins.mode == Relative then EmitBranch(ParseExpression(x.value, scope).value, ins, table, scope)
        else EmitTerm(ParseExpression(x.value, scope).value, ins, table, scope)
  {
    hide ParseExpression, EmitBranch;
    assert ins.mode == Relative ==> forall t, scope :: EmitTerm(t, ins, table, scope) == EmitBranch(t, ins, table, scope);
    hide EmitTerm;
  }

  lemma InstructionEncodes(lines: seq<Line>, ins: Coded, table: Table, chars: map<string, C.i32>)
    requires Block(lines, table, chars, map[]) && ins.offset < 0x1_0000
    ensures EmitOperand(ins, table, chars).Some? <==> Encodable(lines, ins, table, chars)
  {
    hide Block, ParseExpression, OperandFits, BranchFits, Expression, BranchExpression, EmitTerm, EmitBranch;
    if Length(ins.mode) > 1 {
      OperandRead(ins, table, chars);
      hide EmitOperand;
      if ins.mode == Relative {
        if BranchExpression(ins.operand).Some? { BranchTermFits(lines, BranchExpression(ins.operand).value, ins, table, chars); }
      } else {
        if Expression(ins.operand).Some? { TermFits(lines, Expression(ins.operand).value, ins, table, chars); }
      }
    }
  }

  lemma {:induction false} EmittedIfAll(table: Table, n: nat, chars: map<string, C.i32>)
    requires n <= |table.code|
    ensures EmittedUpto(table, n, chars).Some? <==> forall i :: 0 <= i < n ==> EmitOperand(table.code[i], table, chars).Some?
  {
    hide EmitOperand;
    if n > 0 { EmittedIfAll(table, n - 1, chars); }
  }

  /**
   * A block that pass one has laid out is assembled if and only if every operand fits its bytes and every branch reaches
   * its place.
   */
  lemma AssembledExactly(lines: seq<Line>, chars: map<string, C.i32>, table: Table)
    requires Entered(lines, |lines|, chars) == Some(table) && table.size < 0x1_0000
    ensures Assembled(lines, chars).Some? <==> forall i :: 0 <= i < |table.code| ==> Encodable(lines, table.code[i], table, chars)
  {
    hide Entered, EmittedUpto, Encodable, EmitOperand, Template, LabelsWithin;
    LabelsInside(lines, |lines|, chars);
    EmittedIfAll(table, |table.code|, chars);
    forall i | 0 <= i < |table.code|
      ensures EmitOperand(table.code[i], table, chars).Some? <==> Encodable(lines, table.code[i], table, chars)
    {
      BlockInside(lines, table, chars, map[], i);
      InstructionEncodes(lines, table.code[i], table, chars);
    }
  }
}
