/** The two passes of the inline assembler, over lines already split into labels, definitions and instructions. */
module Assembler {
  import opened Wrappers
  import opened Isa
  import C = ConstExpr

  // ----- operand expressions -----

  datatype Selector = Low | High

  /** A constant expression or single name; `:name` plus a number; `*` plus a number; `@+`; `@-`. */
  datatype Body = Plain(tree: C.Tree) | Foreign(name: string, plus: C.i32) | Here(plus: C.i32) | Ahead | Behind

  datatype Expr = Expr(selector: Option<Selector>, body: Body)

  datatype Atom = Number(value: C.i32) | Local(name: string) | External(name: string) | Current | NextAnonymous | LastAnonymous

  datatype Term = Term(selector: Option<Selector>, atom: Atom, addend: int)

  /** The literal numbers that may follow a name the block does not define as a constant. */
  function Literal(t: C.Tree, chars: map<string, C.i32>): Option<int> {
    match t
    case Numeral(number, _) => if number < 0x8000_0000 then Some(number) else None
    case Char(body) => if body in chars then Some(chars[body]) else None
    case _ => None
  }

  /** An expression with an unknown name in it is kept only as that name, plus or minus a literal number. */
  function Relocatable(selector: Option<Selector>, t: C.Tree, chars: map<string, C.i32>): Option<Term> {
    if t.Name? then Some(Term(selector, Local(t.name), 0))
    else if t.Binary? && t.left.Name? && (t.op == C.Add || t.op == C.Sub) && Literal(t.right, chars).Some? then
      var k := Literal(t.right, chars).value;
      Some(Term(selector, Local(t.left.name), if t.op == C.Add then k else -k))
    else None
  }

  function ParseExpression(e: Expr, scope: C.Scope): Option<Term> {
    match e.body
    case Plain(tree) =>
      var v := C.Eval(tree, scope);
      if v.None? then None
      else if C.Unresolved(tree, scope) then Relocatable(e.selector, tree, scope.chars)
      else Some(Term(e.selector, Number(v.value), 0))
    case Foreign(name, plus) => Some(Term(e.selector, External(name), plus))
    case Here(plus) => Some(Term(e.selector, Current, plus))
    case Ahead => Some(Term(e.selector, NextAnonymous, 0))
    case Behind => Some(Term(e.selector, LastAnonymous, 0))
  }

  function Select(s: Option<Selector>, v: C.i32): C.i32 {
    match s
    case None => v
    case Some(Low) => v as int % 256
    case Some(High) => v as int / 256 % 256
  }

  function Numeric(t: Term, scope: C.Scope): Option<C.i32> {
    var v := match t.atom
      case Number(value) => C.Checked(value + t.addend)
      case Local(name) => if C.Normalize(name) in scope.constants then C.Checked(scope.constants[C.Normalize(name)] + t.addend) else None
      case _ => None;
    if v.None? then None else Some(Select(t.selector, v.value))
  }

  // ----- instructions as written, and the mode they get -----

  datatype Operand =
    | Nothing | A | Sharp(e: Expr)
    | Parens(e: Expr) | ParensX(e: Expr) | ParensY(e: Expr)
    | Bare(e: Expr) | BareX(e: Expr) | BareY(e: Expr)

  datatype Suffix = NoSuffix | DotZ | DotA

  datatype Source = Source(mnemonic: Mnemonic, suffix: Suffix, operandLabel: Option<string>, operand: Operand)

  predicate IsBranch(m: Mnemonic) { OpcodeFor(Op(m, Relative)).Some? }

  predicate OpensGroup(t: C.Tree) {
    match t
    case Group(_) => true
    case Binary(op, left, _) => C.LevelOf(left) < C.Level(op) || OpensGroup(left)
    case _ => false
  }

  /** Unselected text that starts with a parenthesis but does not end the operand with it is no operand at all. */
  predicate LooksIndirect(e: Expr) { e.selector.None? && e.body.Plain? && OpensGroup(e.body.tree) }

  function Sized(e: Expr, suffix: Suffix, scope: C.Scope, small: Mode, large: Mode): Option<seq<Mode>> {
    var t := ParseExpression(e, scope);
    if LooksIndirect(e) || t.None? then None
    else
      var v := Numeric(t.value, scope);
      var fits := match suffix
        case DotZ => true
        case DotA => false
        case NoSuffix => v.Some? && 0 <= v.value < 256;
      Some(if fits then [small, large] else [large])
  }

  function Checked(e: Expr, scope: C.Scope, mode: Mode): Option<seq<Mode>> {
    if ParseExpression(e, scope).None? then None else Some([mode])
  }

  function Modes(m: Mnemonic, suffix: Suffix, operand: Operand, scope: C.Scope): (r: Option<seq<Mode>>) {
    if IsBranch(m) then if operand.Nothing? then None else Some([Relative])
    else
      match operand
      case Nothing => Some([Implied])
      case A => Some([Accumulator])
      case Sharp(e) => Checked(e, scope, Immediate)
      case Parens(e) => Checked(e, scope, Indirect)
      case ParensX(e) => Checked(e, scope, IndexedIndirectX)
      case ParensY(e) => Checked(e, scope, IndirectIndexedY)
      case Bare(e) => Sized(e, suffix, scope, ZeroPage, Absolute)
      case BareX(e) => Sized(e, suffix, scope, ZeroPageX, AbsoluteX)
      case BareY(e) => Sized(e, suffix, scope, ZeroPageY, AbsoluteY)
  }

  /** The first candidate mode the mnemonic has. */
  function Choose(m: Mnemonic, modes: seq<Mode>): (r: Option<(byte, Mode)>)
    ensures r.Some? ==> Decode(r.value.0) == Some(Op(m, r.value.1)) && r.value.1 in modes
  {
    hide Decode;
    if modes == [] then None
    else
      var opcode := OpcodeFor(Op(m, modes[0]));
      if opcode.Some? then OpcodeRoundTrip(Op(m, modes[0])); Some((opcode.value, modes[0])) else Choose(m, modes[1..])
  }

  function SelectInstruction(s: Source, scope: C.Scope): (r: Option<(byte, Mode)>)
    ensures r.Some? ==> Decode(r.value.0) == Some(Op(s.mnemonic, r.value.1))
  {
    var modes := Modes(s.mnemonic, s.suffix, s.operand, scope);
    if modes.None? then None else Choose(s.mnemonic, modes.value)
  }

  // ----- pass one: offsets -----

  datatype Lead = Anonymous | Named(name: string)

  datatype Content =
    | Empty
    | Define(name: string, e: Expr)
    | Code(mark: Option<string>, ins: Option<Source>)

  datatype Line = Line(lead: Option<Lead>, content: Content)

  datatype Coded = Coded(mnemonic: Mnemonic, operand: Operand, offset: nat, line: nat, opcode: byte, mode: Mode)

  /** Labels by normalized name, anonymous labels as line and offset, and the instructions with their places. */
  datatype Table = Table(
    constants: map<string, C.i32>, labels: map<string, nat>, anonymous: seq<(nat, nat)>, code: seq<Coded>, size: nat)

  const EMPTY: Table := Table(map[], map[], [], [], 0)

  function AddLabel(t: Table, name: string, at: nat): Option<Table> {
    var key := C.Normalize(name);
    if key in t.labels then None else Some(t.(labels := t.labels[key := at]))
  }

  function EnterLead(t: Table, lead: Option<Lead>, line: nat): Option<Table> {
    match lead
    case None => Some(t)
    case Some(Anonymous) => Some(t.(anonymous := t.anonymous + [(line, t.size)]))
    case Some(Named(name)) => AddLabel(t, name, t.size)
  }

  function EnterDefine(t: Table, name: string, e: Expr, chars: map<string, C.i32>): Option<Table> {
    var scope := C.Scope(t.constants, chars);
    var term := ParseExpression(e, scope);
    if term.None? then None
    else
      var v := Numeric(term.value, scope);
      if v.None? then None
      else Some(t.(constants := t.constants[C.Normalize(name) := v.value]))
  }

  function EnterInstruction(t: Table, s: Source, line: nat, chars: map<string, C.i32>): Option<Table> {
    var choice := SelectInstruction(s, C.Scope(t.constants, chars));
    if (s.operandLabel.Some? && s.operand.Nothing?) || choice.None? then None
    else
      var (opcode, mode) := choice.value;
      var labelled := if s.operandLabel.None? then Some(t)
                      else if Length(mode) == 1 then None
                      else AddLabel(t, s.operandLabel.value, t.size + 1);
      if labelled.None? then None
      else Some(labelled.value.(code := t.code + [Coded(s.mnemonic, s.operand, t.size, line, opcode, mode)], size := t.size + Length(mode)))
  }

  function EnterContent(t: Table, content: Content, line: nat, chars: map<string, C.i32>): Option<Table> {
    match content
    case Empty => Some(t)
    case Define(name, e) => EnterDefine(t, name, e, chars)
    case Code(mark, ins) =>
      var labelled := if mark.None? then Some(t) else AddLabel(t, mark.value, t.size);
      if labelled.None? || ins.None? then labelled
      else EnterInstruction(labelled.value, ins.value, line, chars)
  }

  function Enter(t: Table, line: Line, index: nat, chars: map<string, C.i32>): Option<Table> {
    var led := EnterLead(t, line.lead, index);
    if led.None? then None else EnterContent(led.value, line.content, index, chars)
  }

  /** The tables after the first `n` lines. */
  function Entered(lines: seq<Line>, n: nat, chars: map<string, C.i32>): Option<Table>
    requires n <= |lines|
  {
    if n == 0 then Some(EMPTY)
    else
      var before := Entered(lines, n - 1, chars);
      if before.None? then None else Enter(before.value, lines[n - 1], n - 1, chars)
  }

  // ----- pass two: items and relocations -----

  datatype Kind = Absolute16 | Byte8 | Low8 | High8

  datatype Target = Symbol(name: string) | InlineOffset(offset: nat) | AbsoluteAt(address: nat)

  datatype Use =
    | Address | Constant | Read | Write | ReadWrite | IndexedRead | IndexedWrite | IndexedReadWrite | Call | Control | PointerRead

  datatype Reloc = Reloc(offset: nat, kind: Kind, target: Target, addend: int, zeroPage: bool, use: Use)

  /** One number byte, or an address still to be filled in: one byte with a selector, two without. */
  datatype Item =
    | Byte(value: byte)
    | Relative16(selector: Option<Selector>, offset: int)
    | Symbolic(selector: Option<Selector>, name: string, offset: int)

  datatype Emitted = Emitted(items: seq<Item>, relocs: seq<Reloc>)

  function OperandExpr(ins: Coded): Option<Expr> {
    match ins.operand
    case Nothing => None
    case A => if ins.mode == Relative then Some(Expr(None, Plain(C.Name("A")))) else None
    case Bare(e) => Some(e)
    case Sharp(e) => if ins.mode == Relative then None else Some(e)
    case Parens(e) => if ins.mode == Relative then None else Some(e)
    case ParensX(e) => if ins.mode == Relative then None else Some(e)
    case ParensY(e) => if ins.mode == Relative then None else Some(e)
    case BareX(e) => if ins.mode == Relative then None else Some(e)
    case BareY(e) => if ins.mode == Relative then None else Some(e)
  }

  /** The first anonymous label on a later line. */
  function FirstAfter(anonymous: seq<(nat, nat)>, line: nat): Option<nat> {
    if anonymous == [] then None
    else if anonymous[0].0 > line then Some(anonymous[0].1)
    else FirstAfter(anonymous[1..], line)
  }

  /** The last anonymous label on an earlier line. */
  function LastBefore(anonymous: seq<(nat, nat)>, line: nat): Option<nat> {
    if anonymous == [] then None
    else if anonymous[|anonymous| - 1].0 < line then Some(anonymous[|anonymous| - 1].1)
    else LastBefore(anonymous[..|anonymous| - 1], line)
  }

  function LocalTarget(t: Term, ins: Coded, table: Table, scope: C.Scope): Option<int> {
    var base: Option<int> := match t.atom
      case Local(name) => if C.Normalize(name) in table.labels then Some(table.labels[C.Normalize(name)]) else None
      case External(_) => None
      case NextAnonymous => FirstAfter(table.anonymous, ins.line)
      case LastAnonymous => LastBefore(table.anonymous, ins.line)
      case Current => Some(ins.offset)
      case Number(_) => Numeric(t, scope);
    if base.None? then None else Some(base.value + t.addend)
  }

  predicate NeedsZeroPage(mode: Mode) { mode in {ZeroPage, ZeroPageX, ZeroPageY, IndexedIndirectX, IndirectIndexedY} }

  function UseOf(m: Mnemonic, mode: Mode): Use {
    if m == JSR then Call
    else if m == JMP then if mode == Indirect then PointerRead else Control
    else if mode == Immediate then Address
    else if mode == IndexedIndirectX || mode == IndirectIndexedY then PointerRead
    else
      var indexed := mode in {ZeroPageX, ZeroPageY, AbsoluteX, AbsoluteY};
      if m in {STA, STX, STY} then if indexed then IndexedWrite else Write
      else if m in {ASL, LSR, ROL, ROR, INC, DEC} then if indexed then IndexedReadWrite else ReadWrite
      else if indexed then IndexedRead else Read
  }

  function KindOf(s: Option<Selector>): Kind {
    match s
    case None => Absolute16
    case Some(Low) => Low8
    case Some(High) => High8
  }

  function Short(n: nat): (r: nat)
    ensures r < 0x1_0000 && (n - r) % 0x1_0000 == 0
  {
    n % 0x1_0000
  }

  function EmitNumber(v: int, width: nat): Option<seq<Item>> {
    if width == 1 && 0 <= v < 256 then Some([Byte(v)])
    else if width == 2 && 0 <= v < 0x1_0000 then Some([Byte(v % 256), Byte(v / 256)])
    else None
  }

  /** The address of a place inside the block, written relative to where the operand itself is. */
  function EmitInline(target: int, addend: int, width: nat, ins: Coded, selector: Option<Selector>): Option<Emitted> {
    if width == 1 && selector.None? then None
    else if !(0 <= target + addend < 0x1_0000) then None
    else Some(Emitted(
      [Relative16(selector, target + addend - (ins.offset + 1))],
      [Reloc(Short(ins.offset + 1), KindOf(selector), InlineOffset(target + addend), 0, false, UseOf(ins.mnemonic, ins.mode))]))
  }

  function EmitSymbol(t: Term, name: string, width: nat, ins: Coded): Option<Emitted> {
    if width == 2 && t.selector.Some? then None
    else
      var exact := width == 1 && t.selector.None? && ins.mode == Immediate;
      var selector := if width == 2 then None else if t.selector.None? then Some(Low) else t.selector;
      Some(Emitted(
        [Symbolic(selector, name, t.addend)],
        [Reloc(Short(ins.offset + 1), if exact then Byte8 else KindOf(selector), Symbol(name), t.addend,
               NeedsZeroPage(ins.mode), if exact then Constant else UseOf(ins.mnemonic, ins.mode))]))
  }

  function EmitBranch(t: Term, ins: Coded, table: Table, scope: C.Scope): Option<Emitted> {
    var target := LocalTarget(t, ins, table, scope);
    if target.None? then None
    else
      var displacement := target.value - (ins.offset + 2);
      if -128 <= displacement < 128 then Some(Emitted([Byte(displacement % 256)], [])) else None
  }

  function EmitValue(v: int, width: nat, ins: Coded): Option<Emitted> {
    var items := EmitNumber(v, width);
    if items.None? then None
    else if ins.mode == Immediate then Some(Emitted(items.value, []))
    else Some(Emitted(items.value,
      [Reloc(Short(ins.offset + 1), if width == 1 then Low8 else Absolute16, AbsoluteAt(v), 0, NeedsZeroPage(ins.mode), UseOf(ins.mnemonic, ins.mode))]))
  }

  /** The term of an instruction's operand, parsed again with every constant of the block. */
  function OperandTerm(ins: Coded, scope: C.Scope): Option<Term> {
    var e := OperandExpr(ins);
    if e.None? then None else ParseExpression(e.value, scope)
  }

  function EmitOperand(ins: Coded, table: Table, chars: map<string, C.i32>): Option<Emitted> {
    if Length(ins.mode) == 1 then Some(Emitted([], []))
    else
      var scope := C.Scope(table.constants, chars);
      var term := OperandTerm(ins, scope);
      if term.None? then None else EmitTerm(term.value, ins, table, scope)
  }

  function EmitTerm(t: Term, ins: Coded, table: Table, scope: C.Scope): Option<Emitted> {
    var width := Length(ins.mode) - 1;
    if ins.mode == Relative then EmitBranch(t, ins, table, scope)
    else if Numeric(t, scope).Some? then EmitValue(Numeric(t, scope).value, width, ins)
    else
      match t.atom
      case Local(name) =>
        var key := C.Normalize(name);
        if key in table.labels then EmitInline(table.labels[key], t.addend, width, ins, t.selector) else EmitSymbol(t, name, width, ins)
      case External(name) => EmitSymbol(t, name, width, ins)
      case Number(_) => None
      case _ =>
        var target := LocalTarget(t, ins, table, scope);
        if target.None? then None else EmitInline(target.value, 0, width, ins, t.selector)
  }

  /** Items and relocations of the first `n` instructions. */
  function EmittedUpto(table: Table, n: nat, chars: map<string, C.i32>): Option<Emitted>
    requires n <= |table.code|
  {
    if n == 0 then Some(Emitted([], []))
    else
      var before := EmittedUpto(table, n - 1, chars);
      var ins := table.code[n - 1];
      var here := EmitOperand(ins, table, chars);
      if before.None? || here.None? then None
      else Some(Emitted(before.value.items + [Byte(ins.opcode)] + here.value.items, before.value.relocs + here.value.relocs))
  }

  function Width(item: Item): nat { if item.Byte? || item.selector.Some? then 1 else 2 }

  /** The bytes of the items with every address still zero. */
  function Template(items: seq<Item>): (bytes: seq<byte>) {
    if items == [] then [] else Template(items[..|items| - 1]) + Blank(items[|items| - 1])
  }

  function Blank(item: Item): seq<byte> {
    if item.Byte? then [item.value] else if Width(item) == 1 then [0] else [0, 0]
  }

  datatype Program = Program(items: seq<Item>, relocs: seq<Reloc>, bytes: seq<byte>, table: Table)

  function Assembled(lines: seq<Line>, chars: map<string, C.i32>): Option<Program> {
    var table := Entered(lines, |lines|, chars);
    if table.None? then None
    else
      var e := EmittedUpto(table.value, |table.value.code|, chars);
      if e.None? then None
      else Some(Program(e.value.items, e.value.relocs, Template(e.value.items), table.value))
  }

  // ----- the two loops -----

  /** The instruction part of a line: choose the encoding, bind the operand's own label, give it its place. */
  method Place(t: Table, s: Source, index: nat, chars: map<string, C.i32>) returns (r: Option<Table>)
    ensures r == EnterInstruction(t, s, index, chars)
  {
    hide SelectInstruction, C.Normalize;
    var labels := t.labels;
    if s.operandLabel.Some? && s.operand.Nothing? { return None; }
    var choice := SelectInstruction(s, C.Scope(t.constants, chars));
    if choice.None? { return None; }
    var (opcode, mode) := choice.value;
    if s.operandLabel.Some? {
      if Length(mode) == 1 || C.Normalize(s.operandLabel.value) in labels { return None; }
      labels := labels[C.Normalize(s.operandLabel.value) := t.size + 1];
    }
    var code := t.code + [Coded(s.mnemonic, s.operand, t.size, index, opcode, mode)];
    r := Some(Table(t.constants, labels, t.anonymous, code, t.size + Length(mode)));
  }

  method PassOne(lines: seq<Line>, chars: map<string, C.i32>) returns (r: Option<Table>)
    ensures r == Entered(lines, |lines|, chars)
  {
    hide EnterInstruction, ParseExpression, Numeric, C.Normalize;
    var t := EMPTY;
    for index := 0 to |lines|
      invariant Entered(lines, index, chars) == Some(t)
    {
      hide Entered;
      var line := lines[index];
      EnteredNext(lines, index, chars);
      match line.lead {
        case None =>
        case Some(Anonymous) =>
          t := t.(anonymous := t.anonymous + [(index, t.size)]);
        case Some(Named(name)) =>
          if C.Normalize(name) in t.labels { return None; }
          t := t.(labels := t.labels[C.Normalize(name) := t.size]);
      }
      match line.content {
        case Empty =>
        case Define(name, e) =>
          var scope := C.Scope(t.constants, chars);
          var term := ParseExpression(e, scope);
          if term.None? { return None; }
          var value := Numeric(term.value, scope);
          if value.None? { return None; }
          t := t.(constants := t.constants[C.Normalize(name) := value.value]);
        case Code(mark, ins) =>
          if mark.Some? {
            if C.Normalize(mark.value) in t.labels { return None; }
            t := t.(labels := t.labels[C.Normalize(mark.value) := t.size]);
          }
          if ins.Some? {
            var placed := Place(t, ins.value, index, chars);
            if placed.None? { return None; }
            t := placed.value;
          }
      }
    }
    r := Some(t);
  }

  lemma EnteredNext(lines: seq<Line>, n: nat, chars: map<string, C.i32>)
    requires n < |lines| && Entered(lines, n, chars).Some?
    ensures Entered(lines, n + 1, chars) == Enter(Entered(lines, n, chars).value, lines[n], n, chars)
    ensures Entered(lines, n + 1, chars).None? ==> Entered(lines, |lines|, chars).None?
  {
    hide Enter;
    if Entered(lines, n + 1, chars).None? { StaysRejected(lines, n + 1, |lines|, chars); }
  }

  lemma {:induction false} StaysRejected(lines: seq<Line>, m: nat, n: nat, chars: map<string, C.i32>)
    requires m <= n <= |lines| && Entered(lines, m, chars).None?
    ensures Entered(lines, n, chars).None?
    decreases n
  {
    if m < n { StaysRejected(lines, m, n - 1, chars); }
  }

  lemma {:induction false} StaysUnemitted(table: Table, m: nat, n: nat, chars: map<string, C.i32>)
    requires m <= n <= |table.code| && EmittedUpto(table, m, chars).None?
    ensures EmittedUpto(table, n, chars).None?
    decreases n
  {
    if m < n { StaysUnemitted(table, m, n - 1, chars); }
  }

  method PassTwo(table: Table, chars: map<string, C.i32>) returns (r: Option<Emitted>)
    ensures r == EmittedUpto(table, |table.code|, chars)
  {
    hide EmitOperand;
    var items: seq<Item>, relocs: seq<Reloc> := [], [];
    for n := 0 to |table.code|
      invariant EmittedUpto(table, n, chars) == Some(Emitted(items, relocs))
    {
      var ins := table.code[n];
      items := items + [Byte(ins.opcode)];
      var operand := EmitOperand(ins, table, chars);
      if operand.None? {
        StaysUnemitted(table, n + 1, |table.code|, chars);
        return None;
      }
      items := items + operand.value.items;
      relocs := relocs + operand.value.relocs;
    }
    r := Some(Emitted(items, relocs));
  }

  method TemplateOf(items: seq<Item>) returns (bytes: seq<byte>)
    ensures bytes == Template(items)
  {
    bytes := [];
    for n := 0 to |items|
      invariant bytes == Template(items[..n])
    {
      assert items[..n + 1][..n] == items[..n];
      match items[n] {
        case Byte(value) => bytes := bytes + [value];
        case _ =>
          bytes := bytes + if items[n].selector.None? then [0, 0] else [0];
      }
    }
    assert items[..|items|] == items;
  }

  method AssembleBlock(lines: seq<Line>, chars: map<string, C.i32>) returns (r: Option<Program>)
    ensures r == Assembled(lines, chars)
  {
    hide Entered, EmittedUpto, Template;
    var table := PassOne(lines, chars);
    if table.None? { return None; }
    var e := PassTwo(table.value, chars);
    if e.None? { return None; }
    var bytes := TemplateOf(e.value.items);
    r := Some(Program(e.value.items, e.value.relocs, bytes, table.value));
  }
}
