/** The forms of operands: each gets a mode that acts on the cell it names, and the short one exactly where it fits. */
module AsmForms {
  import opened Wrappers
  import opened Isa
  import opened Assembler
  import C = ConstExpr
  import Cpu
  import Pattern = IsaPattern

  // ----- what each form acts on -----

  /** The operand is a cell of memory. */
  ghost predicate Cell(mode: Mode, w: Cpu.word, s: Cpu.State, at: int) {
    0 <= at < 0x1_0000 && Cpu.Address(mode, w, s) == at && Cpu.Fetch(mode, w, s) == s.mem[at]
  }

  /** The address in two cells of page zero. */
  function Paired(m: Cpu.Memory, low: int): int
    requires 0 <= low < 256
  {
    m[low] as int + 256 * m[(low + 1) % 256] as int
  }

  /** An indexed cell: one of page zero for a short operand, one of memory for a long one. */
  function Indexed(mode: Mode, w: Cpu.word, index: byte): int {
    if Length(mode) == 2 then (w + index) % 256 else (w + index) % 0x1_0000
  }

  /** What an operand is, `w` being the value of its expression: nothing, the byte itself, or a cell. */
  ghost predicate ActsOn(operand: Operand, mode: Mode, w: Cpu.word, s: Cpu.State) {
    match operand
    case Nothing => Length(mode) == 1 && mode != Accumulator
    case A => Length(mode) == 1 && Cpu.Fetch(mode, w, s) == s.a
    case Sharp(_) => w < 256 && Cpu.Fetch(mode, w, s) == w
    case Parens(_) => mode == Indirect
    case ParensX(_) => w < 256 && Cell(mode, w, s, Paired(s.mem, (w + s.x) % 256))
    case ParensY(_) => w < 256 && Cell(mode, w, s, (Paired(s.mem, w) + s.y) % 0x1_0000)
    case Bare(_) => Cell(mode, w, s, w)
    case BareX(_) => Cell(mode, w, s, Indexed(mode, w, s.x))
    case BareY(_) => Cell(mode, w, s, Indexed(mode, w, s.y))
  }

  lemma ModesOfIndirect(m: Mnemonic, suffix: Suffix, operand: Operand, scope: C.Scope, mode: Mode)
    requires Modes(m, suffix, operand, scope).Some? && mode in Modes(m, suffix, operand, scope).value && !IsBranch(m)
    ensures operand.Parens? ==> mode == Indirect
    ensures operand.ParensX? ==> mode == IndexedIndirectX
    ensures operand.ParensY? ==> mode == IndirectIndexedY
  {
    hide IsBranch, ParseExpression, Sized;
  }

  lemma ModesOfRest(m: Mnemonic, suffix: Suffix, operand: Operand, scope: C.Scope, mode: Mode)
    requires Modes(m, suffix, operand, scope).Some? && mode in Modes(m, suffix, operand, scope).value && !IsBranch(m)
    ensures operand.Nothing? ==> mode == Implied
    ensures operand.A? ==> mode == Accumulator
    ensures operand.Sharp? ==> mode == Immediate
  {
    hide IsBranch, ParseExpression, Sized;
  }

  lemma ModesOfBare(m: Mnemonic, suffix: Suffix, operand: Operand, scope: C.Scope, mode: Mode)
    requires Modes(m, suffix, operand, scope).Some? && mode in Modes(m, suffix, operand, scope).value && !IsBranch(m)
    ensures operand.Bare? ==> mode == ZeroPage || mode == Absolute
    ensures operand.BareX? ==> mode == ZeroPageX || mode == AbsoluteX
    ensures operand.BareY? ==> mode == ZeroPageY || mode == AbsoluteY
  {
    hide IsBranch, Checked;
    match operand
    case Bare(e) => SizedModes(e, suffix, scope, ZeroPage, Absolute, mode);
    case BareX(e) => SizedModes(e, suffix, scope, ZeroPageX, AbsoluteX, mode);
    case BareY(e) => SizedModes(e, suffix, scope, ZeroPageY, AbsoluteY, mode);
    case _ =>
  }

  lemma SizedModes(e: Expr, suffix: Suffix, scope: C.Scope, small: Mode, large: Mode, mode: Mode)
    requires Sized(e, suffix, scope, small, large).Some? && mode in Sized(e, suffix, scope, small, large).value
    ensures mode == small || mode == large
  {
    hide ParseExpression, Numeric, LooksIndirect;
  }

  /** Each form gets a mode that acts on what the form names, in every state of the machine. */
  lemma ModesAct(m: Mnemonic, suffix: Suffix, operand: Operand, scope: C.Scope, mode: Mode, w: Cpu.word, s: Cpu.State)
    requires Modes(m, suffix, operand, scope).Some? && mode in Modes(m, suffix, operand, scope).value && !IsBranch(m)
    requires Length(mode) == 2 ==> w < 256
    ensures ActsOn(operand, mode, w, s)
  {
    hide IsBranch, Modes;
    match operand
    case Nothing | A | Sharp(_) => ModesOfRest(m, suffix, operand, scope, mode);
    case Parens(_) | ParensX(_) | ParensY(_) => ModesOfIndirect(m, suffix, operand, scope, mode);
    case Bare(_) | BareX(_) | BareY(_) => ModesOfBare(m, suffix, operand, scope, mode);
  }

  // ----- which mode is chosen -----

  /** The mnemonic has an opcode in this mode. */
  ghost predicate HasMode(m: Mnemonic, mode: Mode) { exists o: byte :: Decode(o) == Some(Op(m, mode)) }

  lemma LookupFinds(m: Mnemonic, mode: Mode)
    ensures OpcodeFor(Op(m, mode)).Some? <==> HasMode(m, mode)
  {
    hide Decode, OpcodeFor;
    OpcodeRoundTrip(Op(m, mode));
  }

  predicate Branches(m: Mnemonic) { m in {BCC, BCS, BEQ, BNE, BMI, BPL, BVC, BVS} }

  lemma BranchHasMode(m: Mnemonic)
    requires Branches(m)
    ensures HasMode(m, Relative)
  {
    hide Decode, Sensible, Pattern.Arithmetic, Pattern.Modifying;
    var field := if m.BPL? then 0 else if m.BMI? then 1 else if m.BVC? then 2 else if m.BVS? then 3
                 else if m.BCC? then 4 else if m.BCS? then 5 else if m.BNE? then 6 else 7;
    Pattern.DecodeIsLaid(32 * field + 16);
  }

  /** The relative mode belongs to the eight conditional branches. */
  lemma BranchIsBranch(m: Mnemonic)
    ensures IsBranch(m) <==> Branches(m)
  {
    hide Decode, OpcodeFor;
    LookupFinds(m, Relative);
    if Branches(m) { BranchHasMode(m); }
  }

  /** A name alone, or a name plus or minus a literal. */
  predicate NameAndOffset(t: C.Tree) {
    t.Name? || (t.Binary? && (t.op == C.Add || t.op == C.Sub) && t.left.Name? && (t.right.Numeral? || t.right.Char?))
  }

  /** An expression has a value so far, and one with unknown names is a single name with an offset. */
  predicate Readable(e: Expr, scope: C.Scope) {
    e.body.Plain? ==>
      C.Eval(e.body.tree, scope).Some? && (C.Unresolved(e.body.tree, scope) ==> NameAndOffset(e.body.tree))
  }

  lemma ReadableExactly(e: Expr, scope: C.Scope)
    ensures ParseExpression(e, scope).Some? <==> Readable(e, scope)
  {
    hide C.Normalize, C.Apply;
    if e.body.Plain? && e.body.tree.Binary? && C.Eval(e.body.tree, scope).Some? {
      assert C.Eval(e.body.tree.right, scope).Some?;
    }
  }

  /** The value of the expression is known already, and it is a byte. */
  ghost predicate KnownByte(e: Expr, scope: C.Scope) {
    && e.body.Plain? && !C.Unresolved(e.body.tree, scope)
    && exists v: int :: C.Eval(e.body.tree, scope) == Some(v) && (e.selector.Some? || 0 <= v < 256)
  }

  ghost predicate MayBeShort(e: Expr, suffix: Suffix, scope: C.Scope) {
    suffix.DotZ? || (suffix.NoSuffix? && KnownByte(e, scope))
  }

  /** The text of the expression as an operand starts with a parenthesis. */
  predicate InParens(e: Expr) {
    e.selector.None? && e.body.Plain? && (var text := C.Show(e.body.tree, 0); text != [] && text[0] == '(')
  }

  /** The mode of a cell: the short one where the operand may be short and the instruction has it, else the long one. */
  ghost predicate CellMode(m: Mnemonic, e: Expr, suffix: Suffix, scope: C.Scope, small: Mode, large: Mode, mode: Mode) {
    && Readable(e, scope) && !InParens(e)
    && Shortest(m, MayBeShort(e, suffix, scope), small, large, mode)
  }

  ghost predicate Shortest(m: Mnemonic, short: bool, small: Mode, large: Mode, mode: Mode) {
    mode == if short && HasMode(m, small) then small else large
  }

  /** The mode an instruction as written is assembled in. */
  ghost predicate Suits(s: Source, scope: C.Scope, mode: Mode) {
    && HasMode(s.mnemonic, mode)
    && if Branches(s.mnemonic) then mode == Relative && !s.operand.Nothing?
       else match s.operand
         case Nothing => mode == Implied
         case A => mode == Accumulator
         case Sharp(e) => mode == Immediate && Readable(e, scope)
         case Parens(e) => mode == Indirect && Readable(e, scope)
         case ParensX(e) => mode == IndexedIndirectX && Readable(e, scope)
         case ParensY(e) => mode == IndirectIndexedY && Readable(e, scope)
         case Bare(e) => CellMode(s.mnemonic, e, s.suffix, scope, ZeroPage, Absolute, mode)
         case BareX(e) => CellMode(s.mnemonic, e, s.suffix, scope, ZeroPageX, AbsoluteX, mode)
         case BareY(e) => CellMode(s.mnemonic, e, s.suffix, scope, ZeroPageY, AbsoluteY, mode)
  }

  lemma {:induction false} OpensText(t: C.Tree, level: nat)
    requires C.WellFormed(t)
    ensures var text := C.Show(t, level); text != [] && (text[0] == '(' <==> C.LevelOf(t) < level || OpensGroup(t))
    decreases t
  {
    match t
    case Numeral(number, base) =>
    case Char(_) =>
    case Name(_) =>
    case Group(_) =>
    case Prefixed(_, _) =>
    case Binary(op, left, _) => OpensText(left, C.Level(op));
  }

  ghost predicate Written(e: Expr) { e.body.Plain? ==> C.WellFormed(e.body.tree) }

  lemma KnownExactly(e: Expr, scope: C.Scope)
    requires ParseExpression(e, scope).Some?
    ensures var v := Numeric(ParseExpression(e, scope).value, scope); v.Some? && 0 <= v.value < 256 <==>
      KnownByte(e, scope)
  {
    hide C.Normalize, C.Apply, C.Eval;
    if e.body.Plain? && e.body.tree.Binary? && C.Unresolved(e.body.tree, scope) {
      var t := e.body.tree;
      assert Relocatable(e.selector, t, scope.chars).Some?;
      assert !C.Unresolved(t.right, scope);
      assert C.Unresolved(t.left, scope);
    }
  }

  lemma SizedExactly(e: Expr, suffix: Suffix, scope: C.Scope, small: Mode, large: Mode)
    requires Written(e)
    ensures var r := Sized(e, suffix, scope, small, large);
      && (r.Some? <==> Readable(e, scope) && !InParens(e))
      && (r.Some? ==> r.value == if MayBeShort(e, suffix, scope) then [small, large] else [large])
  {
    hide ParseExpression, Numeric, Readable, KnownByte, C.Show, C.WellFormed;
    ReadableExactly(e, scope);
    if e.body.Plain? { OpensText(e.body.tree, 0); }
    if ParseExpression(e, scope).Some? { KnownExactly(e, scope); }
  }

  lemma ChooseOne(m: Mnemonic, mode: Mode)
    ensures Choose(m, [mode]).Some? <==> HasMode(m, mode)
    ensures Choose(m, [mode]).Some? ==> Choose(m, [mode]).value.1 == mode
  {
    hide Decode, OpcodeFor;
    LookupFinds(m, mode);
    assert [mode][1..] == [];
  }

  lemma ChooseFirst(m: Mnemonic, small: Mode, large: Mode)
    ensures Choose(m, [small, large]).Some? <==> HasMode(m, small) || HasMode(m, large)
    ensures Choose(m, [small, large]).Some? ==>
      Choose(m, [small, large]).value.1 == if HasMode(m, small) then small else large
  {
    hide Decode, OpcodeFor;
    LookupFinds(m, small);
    assert [small, large][1..] == [large];
    ChooseOne(m, large);
  }

  ghost predicate WrittenOperand(operand: Operand) {
    match operand
    case Nothing | A => true
    case Sharp(e) => Written(e)
    case Parens(e) => Written(e)
    case ParensX(e) => Written(e)
    case ParensY(e) => Written(e)
    case Bare(e) => Written(e)
    case BareX(e) => Written(e)
    case BareY(e) => Written(e)
  }

  ghost predicate Offers(s: Source, scope: C.Scope, modes: seq<Mode>) {
    Modes(s.mnemonic, s.suffix, s.operand, scope) == Some(modes)
  }

  ghost predicate OffersNone(s: Source, scope: C.Scope) { Modes(s.mnemonic, s.suffix, s.operand, scope).None? }

  lemma OneMode(s: Source, scope: C.Scope, mode: Mode, only: Mode)
    requires Offers(s, scope, [only])
    ensures Chosen(s, scope, mode) <==> mode == only && HasMode(s.mnemonic, only)
  {
    hide Choose, Modes, HasMode;
    ChooseOne(s.mnemonic, only);
  }

  lemma TwoModes(s: Source, scope: C.Scope, mode: Mode, small: Mode, large: Mode)
    requires Offers(s, scope, [small, large])
    ensures Chosen(s, scope, mode) <==> Shortest(s.mnemonic, true, small, large, mode) && HasMode(s.mnemonic, mode)
  {
    hide Choose, Modes, HasMode;
    ChooseFirst(s.mnemonic, small, large);
  }

  ghost predicate Chosen(s: Source, scope: C.Scope, mode: Mode) {
    SelectInstruction(s, scope).Some? && SelectInstruction(s, scope).value.1 == mode
  }

  lemma NoModes(s: Source, scope: C.Scope, mode: Mode)
    requires OffersNone(s, scope)
    ensures !Chosen(s, scope, mode)
  {
    hide Choose, Modes;
  }

  lemma CheckedMode(s: Source, e: Expr, scope: C.Scope, mode: Mode, only: Mode)
    requires Modes(s.mnemonic, s.suffix, s.operand, scope) == Checked(e, scope, only)
    ensures Chosen(s, scope, mode) <==> mode == only && HasMode(s.mnemonic, only) && Readable(e, scope)
  {
    hide Modes, HasMode, Readable, ParseExpression, Chosen;
    ReadableExactly(e, scope);
    if ParseExpression(e, scope).Some? { OneMode(s, scope, mode, only); } else { NoModes(s, scope, mode); }
  }

  lemma SizedOffers(s: Source, e: Expr, scope: C.Scope, small: Mode, large: Mode)
    requires Modes(s.mnemonic, s.suffix, s.operand, scope) == Sized(e, s.suffix, scope, small, large) && Written(e)
    ensures if Readable(e, scope) && !InParens(e) then
        Offers(s, scope, if MayBeShort(e, s.suffix, scope) then [small, large] else [large])
      else OffersNone(s, scope)
  {
    hide Modes, Sized, Readable, InParens, MayBeShort, Written;
    SizedExactly(e, s.suffix, scope, small, large);
  }

  lemma ShortMode(s: Source, e: Expr, scope: C.Scope, mode: Mode, small: Mode, large: Mode)
    requires Modes(s.mnemonic, s.suffix, s.operand, scope) == Sized(e, s.suffix, scope, small, large) && Written(e)
    requires Readable(e, scope) && !InParens(e) && MayBeShort(e, s.suffix, scope)
    ensures Chosen(s, scope, mode) <==>
      CellMode(s.mnemonic, e, s.suffix, scope, small, large, mode) && HasMode(s.mnemonic, mode)
  {
    hide Modes, Sized, HasMode, Readable, InParens, MayBeShort, Chosen, Written, Offers, OffersNone;
    SizedOffers(s, e, scope, small, large);
    TwoModes(s, scope, mode, small, large);
  }

  lemma LongMode(s: Source, e: Expr, scope: C.Scope, mode: Mode, small: Mode, large: Mode)
    requires Modes(s.mnemonic, s.suffix, s.operand, scope) == Sized(e, s.suffix, scope, small, large) && Written(e)
    requires Readable(e, scope) && !InParens(e) && !MayBeShort(e, s.suffix, scope)
    ensures Chosen(s, scope, mode) <==>
      CellMode(s.mnemonic, e, s.suffix, scope, small, large, mode) && HasMode(s.mnemonic, mode)
  {
    hide Modes, Sized, HasMode, Readable, InParens, MayBeShort, Chosen, Written, Offers, OffersNone;
    SizedOffers(s, e, scope, small, large);
    OneMode(s, scope, mode, large);
  }

  lemma SizedMode(s: Source, e: Expr, scope: C.Scope, mode: Mode, small: Mode, large: Mode)
    requires Modes(s.mnemonic, s.suffix, s.operand, scope) == Sized(e, s.suffix, scope, small, large) && Written(e)
    ensures Chosen(s, scope, mode) <==>
      CellMode(s.mnemonic, e, s.suffix, scope, small, large, mode) && HasMode(s.mnemonic, mode)
  {
    hide Modes, Sized, HasMode, Readable, InParens, MayBeShort, Chosen, Written, Shortest, Offers, OffersNone;
    if !Readable(e, scope) || InParens(e) {
      SizedOffers(s, e, scope, small, large);
      NoModes(s, scope, mode);
    } else if MayBeShort(e, s.suffix, scope) {
      ShortMode(s, e, scope, mode, small, large);
    } else {
      LongMode(s, e, scope, mode, small, large);
    }
  }

  /** An instruction is assembled exactly in the mode that suits it, and refused where none does. */
  lemma ChosenExactly(s: Source, scope: C.Scope, mode: Mode)
    requires WrittenOperand(s.operand)
    ensures Suits(s, scope, mode) <==> SelectInstruction(s, scope).Some? && SelectInstruction(s, scope).value.1 == mode
  {
    hide HasMode, Readable, Branches, CellMode, IsBranch, Checked, Sized, Written, SelectInstruction;
    BranchIsBranch(s.mnemonic);
    assert Chosen(s, scope, mode) <==> SelectInstruction(s, scope).Some? && SelectInstruction(s, scope).value.1 == mode;
    hide Chosen;
    if IsBranch(s.mnemonic) {
      if s.operand.Nothing? { NoModes(s, scope, mode); } else { OneMode(s, scope, mode, Relative); }
    } else {
      match s.operand
      case Nothing => OneMode(s, scope, mode, Implied);
      case A => OneMode(s, scope, mode, Accumulator);
      case Sharp(e) => CheckedMode(s, e, scope, mode, Immediate);
      case Parens(e) => CheckedMode(s, e, scope, mode, Indirect);
      case ParensX(e) => CheckedMode(s, e, scope, mode, IndexedIndirectX);
      case ParensY(e) => CheckedMode(s, e, scope, mode, IndirectIndexedY);
      case Bare(e) => SizedMode(s, e, scope, mode, ZeroPage, Absolute);
      case BareX(e) => SizedMode(s, e, scope, mode, ZeroPageX, AbsoluteX);
      case BareY(e) => SizedMode(s, e, scope, mode, ZeroPageY, AbsoluteY);
    }
  }

  // ----- the instructions of a block and the lines they come from -----

  predicate HasInstruction(line: Line) { line.content.Code? && line.content.ins.Some? }

  /** The instruction is that of its line, in the mode chosen with the constants known there. */
  ghost predicate FromLine(lines: seq<Line>, chars: map<string, C.i32>, ins: Coded) {
    && ins.line < |lines| && HasInstruction(lines[ins.line]) && Entered(lines, ins.line, chars).Some?
    && var s := lines[ins.line].content.ins.value;
       && s.mnemonic == ins.mnemonic && s.operand == ins.operand
       && SelectInstruction(s, C.Scope(Entered(lines, ins.line, chars).value.constants, chars))
            == Some((ins.opcode, ins.mode))
  }

  lemma EnterAdds(t: Table, line: Line, index: nat, chars: map<string, C.i32>)
    requires Enter(t, line, index, chars).Some?
    ensures var u := Enter(t, line, index, chars).value;
      if HasInstruction(line) then
        var s := line.content.ins.value;
        var choice := SelectInstruction(s, C.Scope(t.constants, chars));
        && choice.Some?
        && u.code == t.code + [Coded(s.mnemonic, s.operand, t.size, index, choice.value.0, choice.value.1)]
      else u.code == t.code
  {
    hide SelectInstruction, EnterInstruction, ParseExpression, Numeric, C.Normalize;
    match line.content
    case Empty =>
    case Define(_, _) =>
    case Code(mark, ins) =>
      var led := EnterLead(t, line.lead, index).value;
      var marked := if mark.None? then Some(led) else AddLabel(led, mark.value, led.size);
      if ins.Some? { PlaceAdds(marked.value, ins.value, index, chars); }
  }

  lemma PlaceAdds(t: Table, s: Source, index: nat, chars: map<string, C.i32>)
    requires EnterInstruction(t, s, index, chars).Some?
    ensures var choice := SelectInstruction(s, C.Scope(t.constants, chars));
      && choice.Some?
      && EnterInstruction(t, s, index, chars).value.code
           == t.code + [Coded(s.mnemonic, s.operand, t.size, index, choice.value.0, choice.value.1)]
  {
    hide SelectInstruction, C.Normalize;
  }

  ghost predicate Instructed(lines: seq<Line>, chars: map<string, C.i32>, code: seq<Coded>, upto: nat) {
    && (forall i :: 0 <= i < |code| ==> code[i].line < upto && FromLine(lines, chars, code[i]))
    && (forall i, j :: 0 <= i < j < |code| ==> code[i].line < code[j].line)
    && forall k :: 0 <= k < upto && k < |lines| && HasInstruction(lines[k]) ==> Coming(code, k)
  }

  ghost predicate Coming(code: seq<Coded>, line: nat) { exists i :: 0 <= i < |code| && code[i].line == line }

  /** The instructions of a block are those of its lines, each once and in order. */
  lemma {:induction false} LinesInstructed(lines: seq<Line>, n: nat, chars: map<string, C.i32>)
    requires n <= |lines| && Entered(lines, n, chars).Some?
    ensures Instructed(lines, chars, Entered(lines, n, chars).value.code, n)
  {
    hide Enter, FromLine, SelectInstruction, Coming;
    if n > 0 {
      LinesInstructed(lines, n - 1, chars);
      EnterAdds(Entered(lines, n - 1, chars).value, lines[n - 1], n - 1, chars);
      OneMoreInstructed(lines, n - 1, chars);
    }
  }

  lemma OneMoreInstructed(lines: seq<Line>, n: nat, chars: map<string, C.i32>)
    requires n < |lines| && Entered(lines, n, chars).Some?
      && Enter(Entered(lines, n, chars).value, lines[n], n, chars).Some?
    requires Instructed(lines, chars, Entered(lines, n, chars).value.code, n)
    ensures Instructed(lines, chars, Enter(Entered(lines, n, chars).value, lines[n], n, chars).value.code, n + 1)
  {
    hide Enter, SelectInstruction, Entered;
    var t := Entered(lines, n, chars).value;
    var u := Enter(t, lines[n], n, chars).value;
    EnterAdds(t, lines[n], n, chars);
    if HasInstruction(lines[n]) { assert u.code[|t.code|].line == n; }
    forall k | 0 <= k <= n && HasInstruction(lines[k])
      ensures Coming(u.code, k)
    {
      if k < n {
        assert Coming(t.code, k);
        var i :| 0 <= i < |t.code| && t.code[i].line == k;
        assert u.code[i].line == k;
      }
    }
  }
}
