/** Handing the division routines to the assembler: every text of their kind is accepted, and with which tables. */
module HelperText {
  import opened Wrappers
  import opened Isa
  import opened Assembler
  import C = ConstExpr
  import D = Division
  import Layout = AsmLayout

  // ----- the text, line by line -----

  function Spelled(name: D.Name): string {
    match name
    case Nonzero => "nonzero"
    case Fault => "fault"
    case PositiveLeft => "positive_left"
    case PositiveRight => "positive_right"
    case DivideLoop => "divide"
    case SubtractAt => "subtract"
    case Next => "next"
    case RemainderReady => "remainder_ready"
    case ResultAt => "result"
  }

  const ERROR_ROUTINE := "Error"

  function NumberExpr(v: nat, base: C.Base): Expr { Expr(None, Plain(C.Numeral(v, base))) }

  function NameExpr(name: string): Expr { Expr(None, Plain(C.Name(name))) }

  function OperandText(line: D.Line): Operand
    requires !line.Label?
  {
    match line
    case Data(op, operand) =>
      if op.mode == Immediate then Sharp(NumberExpr(operand, C.Dec))
      else if op.mode == ZeroPage then Bare(NumberExpr(operand, C.Hex))
      else Nothing
    case Branch(_, to) => Bare(NameExpr(Spelled(to)))
    case CallError => Bare(NameExpr(ERROR_ROUTINE))
  }

  function OpOf(line: D.Line): Op
    requires !line.Label?
  {
    match line
    case Data(op, _) => op
    case Branch(m, _) => Op(m, Relative)
    case CallError => Op(JSR, Absolute)
  }

  function SourceOf(line: D.Line): Source
    requires !line.Label?
  {
    Source(OpOf(line).mnemonic, NoSuffix, None, OperandText(line))
  }

  function Written(line: D.Line): Line {
    if line.Label? then Line(Some(Named(Spelled(line.name))), Empty) else Line(None, Code(None, Some(SourceOf(line))))
  }

  function Text(code: seq<D.Line>): (lines: seq<Line>)
    ensures |lines| == |code|
  {
    seq(|code|, k requires 0 <= k < |code| => Written(code[k]))
  }

  // ----- the kind of text that the builders produce -----

  predicate Encodable(op: Op) { OpcodeFor(op).Some? }

  ghost predicate Fine(code: seq<D.Line>, k: nat)
    requires k < |code|
  {
    match code[k]
    case Label(name) => D.Where(code, name) == k
    case Data(op, operand) =>
      && Encodable(op) && operand < 256 && !(op.mnemonic in {RTS, RTI, BRK, TXS, SED, PHA, PHP, PLA, PLP})
      && (op.mode == Immediate || op.mode == ZeroPage || (op.mode == Implied && operand == 0))
    case Branch(m, to) => Encodable(Op(m, Relative)) && D.Where(code, to) < |code| && k - 40 <= D.Where(code, to) <= k + 40
    case CallError => Encodable(Op(JSR, Absolute))
  }

  /** Data in three modes, labels defined once, and branches to labels that are not far. */
  ghost predicate Neat(code: seq<D.Line>) { forall k :: 0 <= k < |code| ==> Fine(code, k) }

  // ----- where lines are -----

  function Count(code: seq<D.Line>, n: nat): nat
    requires n <= |code|
  {
    if n == 0 then 0 else Count(code, n - 1) + if code[n - 1].Label? then 0 else 1
  }

  function Room(line: D.Line): nat { if line.Label? then 0 else Length(OpOf(line).mode) }

  function OffsetOf(code: seq<D.Line>, n: nat): nat
    requires n <= |code|
  {
    if n == 0 then 0 else OffsetOf(code, n - 1) + Room(code[n - 1])
  }

  lemma {:induction false} CountGrows(code: seq<D.Line>, k: nat, n: nat)
    requires k <= n <= |code|
    ensures Count(code, k) <= Count(code, n)
      && OffsetOf(code, k) <= OffsetOf(code, n) <= OffsetOf(code, k) + 3 * (n - k)
    decreases n
  {
    hide OpOf;
    if k < n { CountGrows(code, k, n - 1); }
  }

  // ----- names -----

  function Key(name: D.Name): string { C.Normalize(Spelled(name)) }

  lemma KeysDiffer(a: D.Name, b: D.Name)
    ensures Key(a) == Key(b) ==> a == b
  {
    assert |Key(a)| == |Spelled(a)| && |Key(b)| == |Spelled(b)|;
    assert Key(a)[0] == C.Upper(Spelled(a)[0]) && Key(b)[0] == C.Upper(Spelled(b)[0]);
  }

  lemma ErrorDiffers(a: D.Name)
    ensures Key(a) != C.Normalize(ERROR_ROUTINE)
  {
    assert |Key(a)| == |Spelled(a)|;
    assert Key(a)[0] == C.Upper(Spelled(a)[0]) && C.Normalize(ERROR_ROUTINE)[0] == C.Upper(ERROR_ROUTINE[0]);
  }

  lemma {:induction false} WhereDefined(code: seq<D.Line>, name: D.Name)
    requires D.Where(code, name) < |code|
    ensures code[D.Where(code, name)] == D.Label(name)
  {
    if code[0] != D.Label(name) { WhereDefined(code[1..], name); }
  }

  // ----- the encoding chosen for a line -----

  lemma NotABranch(op: Op)
    requires Encodable(op) && op.mode != Relative
    ensures !IsBranch(op.mnemonic)
  {
    hide Decode;
    OpcodeRoundTrip(op);
    OpcodeRoundTrip(Op(op.mnemonic, Relative));
    assert Sensible(op);
  }

  lemma FirstChosen(op: Op, more: seq<Mode>)
    requires Encodable(op)
    ensures Choose(op.mnemonic, [op.mode] + more) == Some((OpcodeFor(op).value, op.mode))
  {
    hide OpcodeFor, Decode;
  }

  lemma NumberText(v: nat, base: C.Base, chars: map<string, C.i32>)
    requires v < 256
    ensures var scope := C.Scope(map[], chars);
      var t := ParseExpression(NumberExpr(v, base), scope);
      t == Some(Term(None, Number(v), 0)) && Numeric(t.value, scope) == Some(v) && !LooksIndirect(NumberExpr(v, base))
  {
  }

  lemma NameText(name: string, chars: map<string, C.i32>)
    ensures var scope := C.Scope(map[], chars);
      var t := ParseExpression(NameExpr(name), scope);
      t == Some(Term(None, Local(name), 0)) && Numeric(t.value, scope) == None && !LooksIndirect(NameExpr(name))
  {
  }

  lemma LineChosen(code: seq<D.Line>, k: nat, chars: map<string, C.i32>)
    requires k < |code| && !code[k].Label? && Fine(code, k)
    ensures Encodable(OpOf(code[k]))
    ensures SelectInstruction(SourceOf(code[k]), C.Scope(map[], chars))
      == Some((OpcodeFor(OpOf(code[k])).value, OpOf(code[k]).mode))
  {
    hide OpcodeFor, Choose, Decode, Sensible, ParseExpression, Numeric, LooksIndirect, IsBranch;
    var op := OpOf(code[k]);
    match code[k]
    case Data(_, operand) =>
      NotABranch(op);
      NumberText(operand, C.Dec, chars);
      NumberText(operand, C.Hex, chars);
      FirstChosen(op, []);
      FirstChosen(op, [Absolute]);
      assert [op.mode] + [] == [op.mode] && [ZeroPage] + [Absolute] == [ZeroPage, Absolute];
    case Branch(m, _) =>
      BranchIs(m);
      FirstChosen(op, []);
      assert [op.mode] + [] == [op.mode];
    case CallError =>
      NotABranch(op);
      NameText(ERROR_ROUTINE, chars);
      FirstChosen(op, []);
      assert [op.mode] + [] == [op.mode];
  }

  lemma BranchIs(m: Mnemonic)
    requires Encodable(Op(m, Relative))
    ensures IsBranch(m)
  {
    hide OpcodeFor;
  }

  // ----- pass one -----

  function CodedLine(code: seq<D.Line>, k: nat): Coded
    requires k < |code| && !code[k].Label? && Encodable(OpOf(code[k]))
  {
    var op := OpOf(code[k]);
    Coded(op.mnemonic, OperandText(code[k]), OffsetOf(code, k), k, OpcodeFor(op).value, op.mode)
  }

  ghost predicate Lists(code: seq<D.Line>, k: nat, t: Table)
    requires k < |code| && !code[k].Label?
  {
    Encodable(OpOf(code[k])) && Count(code, k) < |t.code| && t.code[Count(code, k)] == CodedLine(code, k)
  }

  ghost predicate Knows(code: seq<D.Line>, k: nat, t: Table)
    requires k < |code| && code[k].Label?
  {
    Layout.Binds(t.labels, Key(code[k].name), OffsetOf(code, k))
  }

  ghost predicate LabelAmong(code: seq<D.Line>, n: nat, key: string)
    requires n <= |code|
  {
    exists k :: 0 <= k < n && code[k].Label? && Key(code[k].name) == key
  }

  ghost predicate TableOf(code: seq<D.Line>, n: nat, t: Table)
    requires n <= |code|
  {
    && t.constants == map[] && t.size == OffsetOf(code, n) && |t.code| == Count(code, n)
    && (forall k :: 0 <= k < n && !code[k].Label? ==> Lists(code, k, t))
    && (forall k :: 0 <= k < n && code[k].Label? ==> Knows(code, k, t))
    && forall key :: key in t.labels ==> LabelAmong(code, n, key)
  }

  lemma StillLists(code: seq<D.Line>, n: nat, t: Table, u: Table)
    requires n <= |code| && TableOf(code, n, t) && t.code <= u.code
    ensures forall k :: 0 <= k < n && !code[k].Label? ==> Lists(code, k, u)
  {
    hide CodedLine, Encodable;
    forall k | 0 <= k < n && !code[k].Label? ensures Lists(code, k, u) { assert Lists(code, k, t); }
  }

  lemma StillAmong(code: seq<D.Line>, n: nat, key: string)
    requires n < |code|
    ensures LabelAmong(code, n + 1, key) <==> LabelAmong(code, n, key) || (code[n].Label? && Key(code[n].name) == key)
  {
    hide Key;
  }

  /** Labels are defined once. */
  lemma NewLabel(code: seq<D.Line>, n: nat)
    requires n < |code| && Neat(code) && code[n].Label?
    ensures !LabelAmong(code, n, Key(code[n].name))
  {
    hide Key;
    assert Fine(code, n);
    forall k | 0 <= k < n && code[k].Label?
      ensures Key(code[k].name) != Key(code[n].name)
    {
      assert Fine(code, k);
      KeysDiffer(code[k].name, code[n].name);
    }
  }

  ghost predicate Extends(t: Table, u: Table) {
    forall key :: key in t.labels ==> key in u.labels && u.labels[key] == t.labels[key]
  }

  lemma StillKnows(code: seq<D.Line>, n: nat, t: Table, u: Table)
    requires n <= |code| && TableOf(code, n, t) && Extends(t, u)
    ensures forall k :: 0 <= k < n && code[k].Label? ==> Knows(code, k, u)
  {
    hide Key, Lists;
    forall k | 0 <= k < n && code[k].Label? ensures Knows(code, k, u) { assert Knows(code, k, t); }
  }

  lemma NotYet(code: seq<D.Line>, n: nat, t: Table, key: string)
    requires n <= |code| && TableOf(code, n, t) && !LabelAmong(code, n, key)
    ensures key !in t.labels
  {
    hide Key, Lists, Knows, LabelAmong;
  }

  lemma LabelTable(code: seq<D.Line>, n: nat, t: Table, u: Table)
    requires n < |code| && TableOf(code, n, t) && code[n].Label? && !LabelAmong(code, n, Key(code[n].name))
    requires u == t.(labels := t.labels[Key(code[n].name) := t.size])
    ensures TableOf(code, n + 1, u)
  {
    hide Key, Lists, LabelAmong, OpOf;
    StillLists(code, n, t, u);
    NotYet(code, n, t, Key(code[n].name));
    StillKnows(code, n, t, u);
    assert Knows(code, n, u);
    hide Knows;
    forall key | key in u.labels ensures LabelAmong(code, n + 1, key) { StillAmong(code, n, key); }
  }

  lemma InstructionNext(code: seq<D.Line>, n: nat)
    requires n < |code| && !code[n].Label?
    ensures Count(code, n + 1) == Count(code, n) + 1 && OffsetOf(code, n + 1) == OffsetOf(code, n) + Room(code[n])
  {
  }

  lemma InstructionTable(code: seq<D.Line>, n: nat, t: Table, u: Table)
    requires n < |code| && TableOf(code, n, t) && !code[n].Label? && Encodable(OpOf(code[n]))
    requires u == t.(code := t.code + [CodedLine(code, n)], size := t.size + Room(code[n]))
    ensures TableOf(code, n + 1, u)
  {
    hide Key, CodedLine, Encodable, OpOf, Count, OffsetOf, Room;
    InstructionNext(code, n);
    StillLists(code, n, t, u);
    assert Lists(code, n, u);
    hide Lists, LabelAmong;
    StillKnows(code, n, t, u);
    hide Knows;
    forall key | key in u.labels ensures LabelAmong(code, n + 1, key) { StillAmong(code, n, key); }
  }

  lemma LabelEntered(code: seq<D.Line>, n: nat, t: Table, chars: map<string, C.i32>)
    requires n < |code| && code[n].Label? && Key(code[n].name) !in t.labels
    ensures Enter(t, Written(code[n]), n, chars) == Some(t.(labels := t.labels[Key(code[n].name) := t.size]))
  {
    hide C.Normalize, Spelled;
  }

  lemma BareInstruction(t: Table, source: Source, n: nat, chars: map<string, C.i32>)
    ensures Enter(t, Line(None, Code(None, Some(source))), n, chars) == EnterInstruction(t, source, n, chars)
  {
    hide EnterInstruction;
  }

  lemma InstructionPlaced(t: Table, source: Source, n: nat, chars: map<string, C.i32>, opcode: byte, mode: Mode)
    requires source.operandLabel.None? && SelectInstruction(source, C.Scope(t.constants, chars)) == Some((opcode, mode))
    ensures EnterInstruction(t, source, n, chars)
      == Some(t.(code := t.code + [Coded(source.mnemonic, source.operand, t.size, n, opcode, mode)], size := t.size + Length(mode)))
  {
    hide SelectInstruction, AddLabel, Decode, Sensible;
  }

  lemma InstructionEntered(code: seq<D.Line>, n: nat, t: Table, chars: map<string, C.i32>)
    requires n < |code| && !code[n].Label? && Fine(code, n) && t.constants == map[] && t.size == OffsetOf(code, n)
    ensures Encodable(OpOf(code[n]))
    ensures Enter(t, Written(code[n]), n, chars)
      == Some(t.(code := t.code + [CodedLine(code, n)], size := t.size + Room(code[n])))
  {
    hide OpOf, OperandText, SelectInstruction, OpcodeFor, Fine, OffsetOf, Enter, EnterInstruction, Decode, Sensible;
    LineChosen(code, n, chars);
    BareInstruction(t, SourceOf(code[n]), n, chars);
    InstructionPlaced(t, SourceOf(code[n]), n, chars, OpcodeFor(OpOf(code[n])).value, OpOf(code[n]).mode);
  }

  lemma LineEntered(code: seq<D.Line>, n: nat, t: Table, chars: map<string, C.i32>)
    requires n < |code| && Neat(code) && TableOf(code, n, t)
    ensures var u := Enter(t, Written(code[n]), n, chars); u.Some? && TableOf(code, n + 1, u.value)
  {
    hide Enter, Written, Lists, Knows, Fine, Key, CodedLine, LabelAmong, OpOf, Encodable;
    if code[n].Label? {
      NewLabel(code, n);
      LabelEntered(code, n, t, chars);
      LabelTable(code, n, t, Enter(t, Written(code[n]), n, chars).value);
    } else {
      assert Fine(code, n);
      InstructionEntered(code, n, t, chars);
      InstructionTable(code, n, t, Enter(t, Written(code[n]), n, chars).value);
    }
  }

  /** The tables pass one builds. */
  lemma {:induction false} PassOneTables(code: seq<D.Line>, n: nat, chars: map<string, C.i32>)
    requires Neat(code) && n <= |code|
    ensures Entered(Text(code), n, chars).Some? && TableOf(code, n, Entered(Text(code), n, chars).value)
  {
    hide Enter, Neat, TableOf, Written;
    if n == 0 {
      NoTable(code);
    } else {
      PassOneTables(code, n - 1, chars);
      LineEntered(code, n - 1, Entered(Text(code), n - 1, chars).value, chars);
    }
  }

  lemma NoTable(code: seq<D.Line>)
    ensures TableOf(code, 0, EMPTY)
  {
  }

  // ----- pass two -----

  function Displacement(code: seq<D.Line>, k: nat): int
    requires k < |code| && code[k].Branch? && D.Where(code, code[k].to) < |code|
  {
    OffsetOf(code, D.Where(code, code[k].to)) - (OffsetOf(code, k) + 2)
  }

  lemma NearEnough(code: seq<D.Line>, k: nat)
    requires k < |code| && code[k].Branch? && Fine(code, k)
    ensures -128 <= Displacement(code, k) < 128
  {
    hide D.Where, Encodable;
    var to := D.Where(code, code[k].to);
    if to <= k { CountGrows(code, to, k); } else { CountGrows(code, k, to); }
  }

  function OperandBytes(code: seq<D.Line>, k: nat): seq<byte>
    requires k < |code| && !code[k].Label? && (code[k].Branch? ==> D.Where(code, code[k].to) < |code|)
  {
    match code[k]
    case Data(op, operand) => if op.mode == Implied then [] else [operand % 256]
    case Branch(_, _) => [Displacement(code, k) % 256]
    case CallError => [0, 0]
  }

  function ErrorReloc(at: nat): Reloc { Reloc(Short(at + 1), Absolute16, Symbol("Error"), 0, false, Call) }

  /** Relocations that are not fixed addresses. */
  function Pending(relocs: seq<Reloc>): seq<Reloc> {
    if relocs == [] then []
    else
      var init, last := relocs[..|relocs| - 1], relocs[|relocs| - 1];
      Pending(init) + if last.target.AbsoluteAt? then [] else [last]
  }

  function Calls(code: seq<D.Line>, n: nat): seq<Reloc>
    requires n <= |code|
  {
    if n == 0 then [] else Calls(code, n - 1) + if code[n - 1].CallError? then [ErrorReloc(OffsetOf(code, n - 1))] else []
  }

  /** What one line contributes: its operand bytes and, for the call, the relocation of its address. */
  ghost predicate EmitsLine(code: seq<D.Line>, k: nat, t: Table, chars: map<string, C.i32>)
    requires k < |code| && !code[k].Label? && Fine(code, k) && Encodable(OpOf(code[k]))
  {
    var e := EmitOperand(CodedLine(code, k), t, chars);
    && e.Some? && Template(e.value.items) == OperandBytes(code, k)
    && |e.value.relocs| <= 1
    && Pending(e.value.relocs) == (if code[k].CallError? then [ErrorReloc(OffsetOf(code, k))] else [])
    && !Layout.SelectsWide(CodedLine(code, k), C.Scope(t.constants, chars))
  }

  lemma PendingOne(r: Reloc)
    ensures Pending([]) == [] && Pending([r]) == if r.target.AbsoluteAt? then [] else [r]
  {
    assert [r][..0] == [];
  }

  lemma NumberEmitted(code: seq<D.Line>, k: nat, t: Table, chars: map<string, C.i32>)
    requires k < |code| && code[k].Data? && Fine(code, k) && t.constants == map[]
    ensures Encodable(OpOf(code[k])) && EmitsLine(code, k, t, chars)
  {
    hide Encodable, OpcodeFor, ParseExpression, Numeric, Template, Pending, OffsetOf, UseOf, Decode, Sensible;
    var v, op := code[k].operand, code[k].op;
    NumberText(v, C.Dec, chars);
    NumberText(v, C.Hex, chars);
    Layout.TemplateOfNothing();
    Layout.TemplateOfByte(v);
    PendingOne(ErrorReloc(0));
    if op.mode == ZeroPage {
      var e := EmitOperand(CodedLine(code, k), t, chars).value;
      PendingOne(e.relocs[0]);
    }
  }

  lemma BranchEmitted(code: seq<D.Line>, k: nat, t: Table, chars: map<string, C.i32>)
    requires k < |code| && code[k].Branch? && Neat(code) && TableOf(code, |code|, t)
    ensures Fine(code, k) && Encodable(OpOf(code[k])) && EmitsLine(code, k, t, chars)
  {
    hide Decode, Sensible, OpcodeFor, Encodable, ParseExpression, Numeric, Template, Pending, OffsetOf, Key, Lists;
    assert Fine(code, k);
    var to := D.Where(code, code[k].to);
    WhereDefined(code, code[k].to);
    assert Knows(code, to, t);
    NearEnough(code, k);
    NameText(Spelled(code[k].to), chars);
    Layout.TemplateOfByte(Displacement(code, k) % 256);
    PendingOne(ErrorReloc(0));
    hide TableOf, Neat, Fine, D.Where, Spelled;
    KeyIs(code[k].to);
  }

  lemma KeyIs(name: D.Name)
    ensures C.Normalize(Spelled(name)) == Key(name)
  {
  }

  lemma CallEmitted(code: seq<D.Line>, k: nat, t: Table, chars: map<string, C.i32>)
    requires k < |code| && code[k].CallError? && Fine(code, k) && TableOf(code, |code|, t)
    ensures Encodable(OpOf(code[k])) && EmitsLine(code, k, t, chars)
  {
    hide Decode, Sensible, OpcodeFor, Encodable, ParseExpression, Numeric, Template, Pending, OffsetOf, Key, Lists,
         Knows, C.Normalize;
    NameText(ERROR_ROUTINE, chars);
    if C.Normalize(ERROR_ROUTINE) in t.labels {
      assert LabelAmong(code, |code|, C.Normalize(ERROR_ROUTINE));
      var j :| 0 <= j < |code| && code[j].Label? && Key(code[j].name) == C.Normalize(ERROR_ROUTINE);
      ErrorDiffers(code[j].name);
    }
    PendingOne(ErrorReloc(OffsetOf(code, k)));
    SymbolicTemplate();
  }

  lemma SymbolicTemplate()
    ensures Template([Symbolic(None, ERROR_ROUTINE, 0)]) == [0, 0]
  {
    assert [Symbolic(None, ERROR_ROUTINE, 0)][..0] == [];
  }

  lemma LineEmitted(code: seq<D.Line>, k: nat, t: Table, chars: map<string, C.i32>)
    requires k < |code| && !code[k].Label? && Neat(code) && TableOf(code, |code|, t)
    ensures Fine(code, k) && Encodable(OpOf(code[k])) && EmitsLine(code, k, t, chars)
  {
    hide EmitsLine, TableOf, Encodable, Fine;
    assert Fine(code, k);
    match code[k]
    case Data(_, _) =>
      assert t.constants == map[] by { NoConstants(code, t); }
      NumberEmitted(code, k, t, chars);
    case Branch(_, _) => BranchEmitted(code, k, t, chars);
    case CallError => CallEmitted(code, k, t, chars);
  }

  lemma NoConstants(code: seq<D.Line>, t: Table)
    requires TableOf(code, |code|, t)
    ensures t.constants == map[]
  {
    hide Lists, Knows, LabelAmong;
  }

  lemma PendingAppend(a: seq<Reloc>, b: seq<Reloc>)
    requires |b| <= 1
    ensures Pending(a + b) == Pending(a) + Pending(b)
  {
    if b == [] { assert a + b == a; } else { assert (a + b)[..|a|] == a; PendingOne(b[0]); assert b == [b[0]]; }
  }

  /**
   * Pass two on the lines up to some point: everything is emitted, nothing too wide, and only calls wait for an
   * address.
   */
  lemma {:induction false} PassTwoEmits(code: seq<D.Line>, n: nat, t: Table, chars: map<string, C.i32>)
    requires Neat(code) && TableOf(code, |code|, t) && n <= |code|
    ensures Count(code, n) <= |t.code|
    ensures var e := EmittedUpto(t, Count(code, n), chars);
      e.Some? && Pending(e.value.relocs) == Calls(code, n) && Layout.NoneWide(t, Count(code, n), chars)
  {
    hide Neat, TableOf, Pending, Layout.NoneWide, EmitOperand, EmitsLine, OffsetOf, Lists, Fine, OpOf;
    CodeLength(code, t);
    CountGrows(code, n, |code|);
    if n == 0 {
      assert Pending([]) == [] by { PendingOne(ErrorReloc(0)); }
      assert Layout.NoneWide(t, 0, chars) by { NothingWide(t, chars); }
    } else {
      PassTwoEmits(code, n - 1, t, chars);
      if !code[n - 1].Label? { OneMore(code, n - 1, t, Count(code, n - 1), chars); }
    }
  }

  lemma NothingWide(t: Table, chars: map<string, C.i32>)
    ensures Layout.NoneWide(t, 0, chars)
  {
  }

  lemma CodeLength(code: seq<D.Line>, t: Table)
    requires TableOf(code, |code|, t)
    ensures |t.code| == Count(code, |code|) && t.size == OffsetOf(code, |code|)
  {
    hide Lists, Knows, LabelAmong;
  }

  lemma ListedLine(code: seq<D.Line>, k: nat, t: Table)
    requires TableOf(code, |code|, t) && k < |code| && !code[k].Label?
    ensures Lists(code, k, t)
  {
    hide Lists, Knows, LabelAmong;
  }

  lemma OneMoreEmitted(t: Table, c: nat, chars: map<string, C.i32>)
    requires c < |t.code| && EmittedUpto(t, c, chars).Some? && EmitOperand(t.code[c], t, chars).Some?
    requires |EmitOperand(t.code[c], t, chars).value.relocs| <= 1
    ensures EmittedUpto(t, c + 1, chars).Some?
    ensures Pending(EmittedUpto(t, c + 1, chars).value.relocs)
      == Pending(EmittedUpto(t, c, chars).value.relocs) + Pending(EmitOperand(t.code[c], t, chars).value.relocs)
  {
    hide Pending, EmitOperand;
    PendingAppend(EmittedUpto(t, c, chars).value.relocs, EmitOperand(t.code[c], t, chars).value.relocs);
  }

  lemma CallsOn(code: seq<D.Line>, k: nat)
    requires k < |code|
    ensures Calls(code, k + 1) == Calls(code, k) + if code[k].CallError? then [ErrorReloc(OffsetOf(code, k))] else []
  {
    hide OffsetOf;
  }

  lemma LineAt(code: seq<D.Line>, k: nat, t: Table, chars: map<string, C.i32>)
    requires Neat(code) && TableOf(code, |code|, t) && k < |code| && !code[k].Label?
    ensures Count(code, k) < |t.code| && Fine(code, k) && Encodable(OpOf(code[k]))
    ensures t.code[Count(code, k)] == CodedLine(code, k) && EmitsLine(code, k, t, chars)
  {
    hide Neat, TableOf, OpOf, Fine, CodedLine, Count, EmitsLine;
    ListedLine(code, k, t);
    LineEmitted(code, k, t, chars);
  }

  lemma NextEmitted(code: seq<D.Line>, k: nat, t: Table, c: nat, chars: map<string, C.i32>)
    requires Neat(code) && TableOf(code, |code|, t) && k < |code| && !code[k].Label? && c == Count(code, k)
    ensures c < |t.code|
    ensures var e := EmitOperand(t.code[c], t, chars);
      e.Some? && |e.value.relocs| <= 1 && Calls(code, k + 1) == Calls(code, k) + Pending(e.value.relocs)
    ensures !Layout.SelectsWide(t.code[c], C.Scope(t.constants, chars))
  {
    hide Neat, TableOf, Pending, EmitOperand, OpOf, Fine, CodedLine, Template, Layout.SelectsWide, Count, Calls,
         ErrorReloc, OperandBytes, OffsetOf;
    LineAt(code, k, t, chars);
    CallsOn(code, k);
  }

  lemma OneMore(code: seq<D.Line>, k: nat, t: Table, c: nat, chars: map<string, C.i32>)
    requires Neat(code) && TableOf(code, |code|, t) && k < |code| && !code[k].Label? && c == Count(code, k)
      && c < |t.code|
    requires var e := EmittedUpto(t, c, chars);
      e.Some? && Pending(e.value.relocs) == Calls(code, k) && Layout.NoneWide(t, c, chars)
    ensures var e := EmittedUpto(t, c + 1, chars);
      e.Some? && Pending(e.value.relocs) == Calls(code, k + 1) && Layout.NoneWide(t, c + 1, chars)
  {
    hide Neat, TableOf, Pending, Layout.NoneWide, EmitOperand, EmittedUpto, Layout.SelectsWide, Calls, Count;
    NextEmitted(code, k, t, c, chars);
    Layout.NoneWideStep(t, c, chars);
    OneMoreEmitted(t, c, chars);
  }

  /**
   * Every such text assembles, with the tables above and no operand too wide. The only addresses left to fill in are
   * those of its calls of Error.
   */
  lemma TextAssembles(code: seq<D.Line>, chars: map<string, C.i32>) returns (p: Program)
    requires Neat(code)
    ensures Layout.Accepted(Text(code), chars, p) && TableOf(code, |code|, p.table)
    ensures Layout.NoneWide(p.table, |p.table.code|, chars) && Pending(p.relocs) == Calls(code, |code|)
  {
    hide Neat, TableOf, Pending, Layout.NoneWide, Entered, EmittedUpto, Template, Count;
    PassOneTables(code, |code|, chars);
    var t := Entered(Text(code), |code|, chars).value;
    PassTwoEmits(code, |code|, t, chars);
    CodeLength(code, t);
    p := Assembled(Text(code), chars).value;
  }
}
