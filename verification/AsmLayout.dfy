/** Layout of an assembled block: the bytes decode to the instructions written, and branches reach their labels. */
module AsmLayout {
  import opened Wrappers
  import opened Isa
  import opened Assembler
  import C = ConstExpr
  import Flow = AsmGraph

  // ----- pass one lays the instructions end to end -----

  ghost predicate Laid(code: seq<Coded>, size: nat) {
    && Upto(code, size, 0) == 0
    && forall i :: 0 <= i < |code| ==> Fits(code, size, i)
  }

  ghost predicate Fits(code: seq<Coded>, size: nat, i: nat)
    requires i < |code|
  {
    Upto(code, size, i + 1) == code[i].offset + Length(code[i].mode)
        && Decode(code[i].opcode) == Some(Op(code[i].mnemonic, code[i].mode))
  }

  function Upto(code: seq<Coded>, size: nat, n: nat): nat
    requires n <= |code|
  {
    if n == |code| then size else code[n].offset
  }

  lemma EnterKeepsLaid(t: Table, line: Line, index: nat, chars: map<string, C.i32>)
    requires Laid(t.code, t.size) && Enter(t, line, index, chars).Some?
    ensures var u := Enter(t, line, index, chars).value;
      && Laid(u.code, u.size) && t.code <= u.code
      && (|u.code| > |t.code| ==> |u.code| == |t.code| + 1 && u.code[|t.code|].offset == t.size && u.code[|t.code|].line == index)
      && (|u.code| == |t.code| ==> u.size == t.size)
  {
    hide Decode, SelectInstruction, ParseExpression, Numeric;
    var led := EnterLead(t, line.lead, index).value;
    assert led.code == t.code && led.size == t.size;
    match line.content
    case Empty =>
    case Define(_, _) =>
    case Code(mark, ins) =>
      var marked := if mark.None? then Some(led) else AddLabel(led, mark.value, led.size);
      if ins.Some? { PlaceKeepsLaid(marked.value, ins.value, index, chars); }
  }

  lemma LaidAppend(code: seq<Coded>, size: nat, ins: Coded)
    requires Laid(code, size) && ins.offset == size && Decode(ins.opcode) == Some(Op(ins.mnemonic, ins.mode))
    ensures Laid(code + [ins], size + Length(ins.mode))
  {
    hide Decode;
    var more, total := code + [ins], size + Length(ins.mode);
    forall i | 0 <= i < |more|
      ensures Fits(more, total, i)
    {
      if i < |code| { assert Fits(code, size, i); }
    }
  }

  lemma PlaceKeepsLaid(t: Table, s: Source, index: nat, chars: map<string, C.i32>)
    requires Laid(t.code, t.size) && EnterInstruction(t, s, index, chars).Some?
    ensures var u := EnterInstruction(t, s, index, chars).value;
      && Laid(u.code, u.size) && t.code <= u.code && |u.code| == |t.code| + 1
      && u.code[|t.code|].offset == t.size && u.code[|t.code|].line == index
  {
    hide Decode, SelectInstruction, Laid;
    var u := EnterInstruction(t, s, index, chars).value;
    var ins := u.code[|t.code|];
    assert u.code == t.code + [ins];
    LaidAppend(t.code, t.size, ins);
  }

  lemma {:induction false} EnteredLaid(lines: seq<Line>, n: nat, chars: map<string, C.i32>)
    requires n <= |lines| && Entered(lines, n, chars).Some?
    ensures Laid(Entered(lines, n, chars).value.code, Entered(lines, n, chars).value.size)
  {
    hide Laid, Enter;
    if n == 0 {
      assert Laid([], 0) by { NothingLaid(); }
    } else {
      EnteredLaid(lines, n - 1, chars);
      EnterKeepsLaid(Entered(lines, n - 1, chars).value, lines[n - 1], n - 1, chars);
    }
  }

  lemma NothingLaid()
    ensures Laid([], 0)
  {
  }

  // ----- pass two emits as many bytes as pass one counted, with one exception -----

  /** A low or high byte selected for a two-byte operand: it is laid out as two bytes but only one is emitted. */
  predicate SelectsWide(ins: Coded, scope: C.Scope) {
    var t := OperandTerm(ins, scope);
    Length(ins.mode) == 3 && t.Some? && t.value.selector.Some? && Numeric(t.value, scope).None?
  }

  lemma TemplateSnoc(items: seq<Item>, last: Item)
    ensures Template(items + [last]) == Template(items) + Blank(last)
  {
    assert (items + [last])[..|items|] == items;
  }

  lemma SplitLast<T>(a: seq<T>, b: seq<T>)
    requires b != []
    ensures var n := |b| - 1; b == b[..n] + [b[n]] && a + b == (a + b[..n]) + [b[n]]
  {
  }

  lemma Associate<T>(a: seq<T>, b: seq<T>, c: seq<T>)
    ensures (a + b) + c == a + (b + c)
  {
  }

  lemma {:induction false} TemplateAppend(a: seq<Item>, b: seq<Item>)
    ensures Template(a + b) == Template(a) + Template(b)
  {
    hide Blank, Template;
    if b == [] {
      assert a + b == a;
      TemplateOfNothing();
    } else {
      var n := |b| - 1;
      var init, last := b[..n], b[n];
      SplitLast(a, b);
      TemplateAppend(a, init);
      TemplateSnoc(a + init, last);
      TemplateSnoc(init, last);
      Associate(Template(a), Template(init), Blank(last));
    }
  }

  lemma TemplateOfTwo(p: Item, q: Item)
    ensures |Template([p, q])| == Width(p) + Width(q)
  {
    assert [p, q] == [p] + [q];
    TemplateAppend([p], [q]);
    TemplateOfOne(p);
    TemplateOfOne(q);
  }

  lemma ValueWidth(v: int, width: nat, ins: Coded)
    requires EmitValue(v, width, ins).Some?
    ensures |Template(EmitValue(v, width, ins).value.items)| == width
  {
    hide Template, UseOf, NeedsZeroPage;
    var items := EmitNumber(v, width).value;
    if width == 1 { TemplateOfOne(items[0]); } else { TemplateOfTwo(items[0], items[1]); }
  }

  lemma InlineWidth(target: int, addend: int, width: nat, ins: Coded, selector: Option<Selector>)
    requires EmitInline(target, addend, width, ins, selector).Some?
    ensures |Template(EmitInline(target, addend, width, ins, selector).value.items)| == if selector.Some? then 1 else 2
    ensures width == 1 ==> selector.Some?
  {
    hide Template, UseOf;
    TemplateOfOne(EmitInline(target, addend, width, ins, selector).value.items[0]);
  }

  lemma SymbolWidth(t: Term, name: string, width: nat, ins: Coded)
    requires EmitSymbol(t, name, width, ins).Some? && 1 <= width <= 2
    ensures |Template(EmitSymbol(t, name, width, ins).value.items)| == width && (width == 2 ==> t.selector.None?)
  {
    hide Template, UseOf, NeedsZeroPage;
    TemplateOfOne(EmitSymbol(t, name, width, ins).value.items[0]);
  }

  lemma BranchByte(t: Term, ins: Coded, table: Table, scope: C.Scope)
    requires EmitBranch(t, ins, table, scope).Some?
    ensures LocalTarget(t, ins, table, scope).Some?
    ensures var displacement := LocalTarget(t, ins, table, scope).value - (ins.offset + 2);
      -128 <= displacement < 128 && Template(EmitBranch(t, ins, table, scope).value.items) == [displacement % 256]
  {
    hide LocalTarget, Template;
    TemplateOfByte((LocalTarget(t, ins, table, scope).value - (ins.offset + 2)) % 256);
  }

  lemma OperandWidth(ins: Coded, table: Table, chars: map<string, C.i32>)
    requires EmitOperand(ins, table, chars).Some?
    ensures |Template(EmitOperand(ins, table, chars).value.items)|
      == if SelectsWide(ins, C.Scope(table.constants, chars)) then 1 else Length(ins.mode) - 1
  {
    hide Template, OperandTerm, Numeric, LocalTarget, EmitBranch, EmitValue, EmitInline, EmitSymbol, C.Normalize;
    TemplateOfNothing();
    if Length(ins.mode) > 1 {
      var scope := C.Scope(table.constants, chars);
      var t, width := OperandTerm(ins, scope).value, Length(ins.mode) - 1;
      if ins.mode == Relative {
        BranchByte(t, ins, table, scope);
      } else if Numeric(t, scope).Some? {
        ValueWidth(Numeric(t, scope).value, width, ins);
      } else {
        match t.atom
        case Local(name) =>
          var key := C.Normalize(name);
          if key in table.labels {
            InlineWidth(table.labels[key], t.addend, width, ins, t.selector);
          } else {
            SymbolWidth(t, name, width, ins);
          }
        case External(name) => SymbolWidth(t, name, width, ins);
        case Number(_) =>
        case _ => InlineWidth(LocalTarget(t, ins, table, scope).value, 0, width, ins, t.selector);
      }
    }
  }

  lemma NextOffset(code: seq<Coded>, size: nat, n: nat)
    requires Laid(code, size) && n < |code|
    ensures Upto(code, size, n + 1) == code[n].offset + Length(code[n].mode)
    ensures Decode(code[n].opcode) == Some(Op(code[n].mnemonic, code[n].mode))
  {
    hide Decode;
    assert Fits(code, size, n);
  }

  ghost predicate NoneWide(table: Table, n: nat, chars: map<string, C.i32>)
    requires n <= |table.code|
  {
    forall i :: 0 <= i < n ==> !SelectsWide(table.code[i], C.Scope(table.constants, chars))
  }

  lemma {:induction false} EmittedLength(table: Table, n: nat, chars: map<string, C.i32>)
    requires Laid(table.code, table.size) && n <= |table.code| && EmittedUpto(table, n, chars).Some?
    ensures |Template(EmittedUpto(table, n, chars).value.items)| <= Upto(table.code, table.size, n)
    ensures |Template(EmittedUpto(table, n, chars).value.items)| == Upto(table.code, table.size, n) <==>
      NoneWide(table, n, chars)
  {
    hide EmitOperand, Laid, SelectsWide, Template;
    if n == 0 {
      assert Template([]) == [] by { TemplateOfNothing(); }
      assert Upto(table.code, table.size, 0) == 0 by { FirstOffset(table.code, table.size); }
    } else {
      EmittedLength(table, n - 1, chars);
      EmittedStep(table, n - 1, chars);
      var ins := table.code[n - 1];
      OperandWidth(ins, table, chars);
      NextOffset(table.code, table.size, n - 1);
      WideIsLong(ins, C.Scope(table.constants, chars));
      NoneWideStep(table, n - 1, chars);
      hide NoneWide, EmittedUpto, Upto;
    }
  }

  lemma NoneWideStep(table: Table, n: nat, chars: map<string, C.i32>)
    requires n < |table.code|
    ensures NoneWide(table, n + 1, chars) <==>
      NoneWide(table, n, chars) && !SelectsWide(table.code[n], C.Scope(table.constants, chars))
  {
    hide SelectsWide;
  }

  lemma TemplateOfNothing()
    ensures Template([]) == []
  {
  }

  lemma TemplateOfOne(item: Item)
    ensures |Template([item])| == Width(item)
  {
    assert [item][..0] == [];
  }

  lemma TemplateOfByte(b: byte)
    ensures Template([Byte(b)]) == [b]
  {
    assert [Byte(b)][..0] == [];
  }

  lemma FirstOffset(code: seq<Coded>, size: nat)
    requires Laid(code, size)
    ensures Upto(code, size, 0) == 0
  {
  }

  lemma WideIsLong(ins: Coded, scope: C.Scope)
    ensures SelectsWide(ins, scope) ==> Length(ins.mode) == 3
  {
  }

  /** One more instruction adds its opcode and operand bytes. */
  lemma EmittedStep(table: Table, n: nat, chars: map<string, C.i32>)
    requires n < |table.code| && EmittedUpto(table, n + 1, chars).Some?
    ensures EmittedUpto(table, n, chars).Some? && EmitOperand(table.code[n], table, chars).Some?
    ensures var before := EmittedUpto(table, n, chars).value;
      var here := EmitOperand(table.code[n], table, chars).value;
      && Template(EmittedUpto(table, n + 1, chars).value.items)
           == Template(before.items) + [table.code[n].opcode] + Template(here.items)
      && EmittedUpto(table, n + 1, chars).value.relocs == before.relocs + here.relocs
  {
    hide EmitOperand, Template;
    var before := EmittedUpto(table, n, chars).value;
    var here := EmitOperand(table.code[n], table, chars).value;
    TemplateAppend(before.items + [Byte(table.code[n].opcode)], here.items);
    TemplateAppend(before.items, [Byte(table.code[n].opcode)]);
    TemplateOfByte(table.code[n].opcode);
  }

  // ----- the bytes decode to the instructions -----

  function Listing(code: seq<Coded>): (prog: seq<Flow.Ins>)
    ensures |prog| == |code|
    ensures forall i :: 0 <= i < |code| ==> prog[i] == Flow.Ins(code[i].offset, Op(code[i].mnemonic, code[i].mode))
  {
    seq(|code|, i requires 0 <= i < |code| => Flow.Ins(code[i].offset, Op(code[i].mnemonic, code[i].mode)))
  }

  ghost predicate Accepted(lines: seq<Line>, chars: map<string, C.i32>, p: Program) {
    Assembled(lines, chars) == Some(p)
  }

  /** Where an instruction's bytes are. */
  ghost predicate HoldsAt(table: Table, i: nat, bytes: seq<byte>, chars: map<string, C.i32>)
    requires i < |table.code|
  {
    var ins := table.code[i];
    && EmitOperand(ins, table, chars).Some?
    && ins.offset + Length(ins.mode) <= |bytes|
    && bytes[ins.offset] == ins.opcode
    && bytes[ins.offset + 1..ins.offset + Length(ins.mode)] == Template(EmitOperand(ins, table, chars).value.items)
  }

  lemma HoldsLonger(table: Table, i: nat, bytes: seq<byte>, more: seq<byte>, chars: map<string, C.i32>)
    requires i < |table.code| && HoldsAt(table, i, bytes, chars)
    ensures HoldsAt(table, i, bytes + more, chars)
  {
    hide EmitOperand, Template;
    var ins := table.code[i];
    assert (bytes + more)[ins.offset + 1..ins.offset + Length(ins.mode)]
      == bytes[ins.offset + 1..ins.offset + Length(ins.mode)];
  }

  lemma HoldsLast(table: Table, i: nat, before: seq<byte>, chars: map<string, C.i32>)
    requires i < |table.code| && EmitOperand(table.code[i], table, chars).Some? && |before| == table.code[i].offset
    requires !SelectsWide(table.code[i], C.Scope(table.constants, chars))
    ensures var operand := Template(EmitOperand(table.code[i], table, chars).value.items);
      HoldsAt(table, i, before + [table.code[i].opcode] + operand, chars)
  {
    hide EmitOperand, Template, SelectsWide;
    OperandWidth(table.code[i], table, chars);
  }

  /** Where an instruction's bytes are. */
  lemma {:induction false} BytesAt(table: Table, n: nat, i: nat, chars: map<string, C.i32>)
    requires Laid(table.code, table.size) && i < n <= |table.code| && EmittedUpto(table, n, chars).Some?
      && NoneWide(table, n, chars)
    ensures HoldsAt(table, i, Template(EmittedUpto(table, n, chars).value.items), chars)
    decreases n
  {
    hide EmitOperand, Laid, SelectsWide, Template, HoldsAt;
    EmittedStep(table, n - 1, chars);
    EmittedLength(table, n - 1, chars);
    NoneWideStep(table, n - 1, chars);
    var before := Template(EmittedUpto(table, n - 1, chars).value.items);
    var ins := table.code[n - 1];
    var operand := Template(EmitOperand(ins, table, chars).value.items);
    if i == n - 1 {
      HoldsLast(table, i, before, chars);
    } else {
      BytesAt(table, n - 1, i, chars);
      Associate(before, [ins.opcode], operand);
      HoldsLonger(table, i, before, [ins.opcode] + operand, chars);
    }
  }

  lemma AcceptedParts(lines: seq<Line>, chars: map<string, C.i32>, p: Program)
    requires Accepted(lines, chars, p)
    ensures Entered(lines, |lines|, chars) == Some(p.table) && Laid(p.table.code, p.table.size)
    ensures EmittedUpto(p.table, |p.table.code|, chars) == Some(Emitted(p.items, p.relocs))
      && p.bytes == Template(p.items)
  {
    hide Entered, EmittedUpto, Template, Laid;
    EnteredLaid(lines, |lines|, chars);
  }

  lemma ListingTiles(table: Table, bytes: seq<byte>, chars: map<string, C.i32>)
    requires Laid(table.code, table.size) && |bytes| == table.size
    requires forall i :: 0 <= i < |table.code| ==> HoldsAt(table, i, bytes, chars)
    ensures Flow.Tiles(bytes, 0, |bytes|, Listing(table.code))
  {
    hide EmitOperand, Decode, Laid, Template;
    var prog, n := Listing(table.code), |table.code|;
    FirstOffset(table.code, table.size);
    if n > 0 { NextOffset(table.code, table.size, n - 1); }
    forall i | 0 <= i < n
      ensures prog[i].offset + Flow.Size(prog[i]) <= |bytes| && Decode(bytes[prog[i].offset]) == Some(prog[i].op)
    {
      assert HoldsAt(table, i, bytes, chars);
      NextOffset(table.code, table.size, i);
    }
    hide HoldsAt;
    forall i, j | 0 <= i < j < n && j == i + 1
      ensures prog[j].offset == prog[i].offset + Flow.Size(prog[i])
    {
      NextOffset(table.code, table.size, i);
    }
  }

  /**
   * The bytes of an accepted block are as long as pass one laid it out exactly when no two-byte operand carries a
   * selector; then the linear sweep over the bytes finds the instructions as written, each at its offset.
   */
  lemma LayoutExact(lines: seq<Line>, chars: map<string, C.i32>, p: Program)
    requires Accepted(lines, chars, p)
    ensures |p.bytes| <= p.table.size
    ensures |p.bytes| == p.table.size <==> NoneWide(p.table, |p.table.code|, chars)
    ensures NoneWide(p.table, |p.table.code|, chars) ==> Flow.Decoded(p.bytes, 0) == Some(Listing(p.table.code))
  {
    hide Entered, EmittedUpto, Template, EmitOperand, Decode, NoneWide, Assembled, Laid, HoldsAt, Flow.Tiles,
         Flow.Decoded;
    AcceptedParts(lines, chars, p);
    var t, n := p.table, |p.table.code|;
    EmittedLength(t, n, chars);
    if NoneWide(t, n, chars) {
      forall i | 0 <= i < n
        ensures HoldsAt(t, i, p.bytes, chars)
      {
        BytesAt(t, n, i, chars);
      }
      ListingTiles(t, p.bytes, chars);
      Flow.TilesDecode(p.bytes, 0, Listing(t.code));
    }
  }

  // ----- where labels point -----

  /** The place of a line: how many bytes and how many instructions come before it. */
  function Start(lines: seq<Line>, k: nat, chars: map<string, C.i32>): nat
    requires k <= |lines| && Entered(lines, k, chars).Some?
  {
    Entered(lines, k, chars).value.size
  }

  function CountBefore(lines: seq<Line>, k: nat, chars: map<string, C.i32>): nat
    requires k <= |lines| && Entered(lines, k, chars).Some?
  {
    |Entered(lines, k, chars).value.code|
  }

  lemma {:induction false} EarlierAccepted(lines: seq<Line>, k: nat, n: nat, chars: map<string, C.i32>)
    requires k <= n <= |lines| && Entered(lines, n, chars).Some?
    ensures Entered(lines, k, chars).Some?
    decreases n
  {
    hide Enter;
    if k < n { EarlierAccepted(lines, k, n - 1, chars); }
  }

  /**
   * A line that starts at `start` binds a name: in front, as a bare mark, or to the operand byte of its instruction.
   */
  ghost predicate Defines(line: Line, start: nat, key: string, place: int) {
    || (line.lead.Some? && line.lead.value.Named? && C.Normalize(line.lead.value.name) == key && place == start)
    || (line.content.Code? && line.content.mark.Some? && C.Normalize(line.content.mark.value) == key && place == start)
    || (line.content.Code? && line.content.ins.Some? && line.content.ins.value.operandLabel.Some?
          && C.Normalize(line.content.ins.value.operandLabel.value) == key && place == start + 1)
  }

  ghost predicate Binds(labels: map<string, nat>, key: string, place: int) { key in labels && labels[key] == place }

  /** A line adds its own bindings, and nothing is ever rebound. */
  lemma EnterBinds(t: Table, line: Line, index: nat, key: string, place: int, chars: map<string, C.i32>)
    requires Enter(t, line, index, chars).Some?
    ensures var u := Enter(t, line, index, chars).value;
      && (Binds(u.labels, key, place) <==> Binds(t.labels, key, place) || Defines(line, t.size, key, place))
      && u.anonymous == t.anonymous + (if line.lead == Some(Anonymous) then [(index, t.size)] else [])
  {
    hide EnterInstruction, ParseExpression, Numeric, C.Normalize;
    var led := EnterLead(t, line.lead, index).value;
    match line.content
    case Empty =>
    case Define(_, _) =>
    case Code(mark, ins) =>
      var marked := if mark.None? then Some(led) else AddLabel(led, mark.value, led.size);
      if ins.Some? { PlaceBinds(marked.value, ins.value, index, key, place, chars); }
  }

  lemma PlaceBinds(t: Table, s: Source, index: nat, key: string, place: int, chars: map<string, C.i32>)
    requires EnterInstruction(t, s, index, chars).Some?
    ensures var u := EnterInstruction(t, s, index, chars).value;
      && u.anonymous == t.anonymous
      && (Binds(u.labels, key, place) <==>
            (Binds(t.labels, key, place) || (s.operandLabel.Some? && C.Normalize(s.operandLabel.value) == key && place == t.size + 1)))
  {
    hide SelectInstruction, C.Normalize;
  }

  ghost predicate DefinedAt(lines: seq<Line>, k: nat, key: string, place: int, chars: map<string, C.i32>) {
    k < |lines| && Entered(lines, k, chars).Some? && Defines(lines[k], Start(lines, k, chars), key, place)
  }

  /** A label has a value exactly when some line binds it there. */
  lemma {:induction false} LabelMeansLine(lines: seq<Line>, n: nat, key: string, place: int, chars: map<string, C.i32>)
    requires n <= |lines| && Entered(lines, n, chars).Some?
    ensures Binds(Entered(lines, n, chars).value.labels, key, place) <==>
      exists k :: 0 <= k < n && DefinedAt(lines, k, key, place, chars)
  {
    hide Enter, Defines;
    if n > 0 {
      LabelMeansLine(lines, n - 1, key, place, chars);
      EnterBinds(Entered(lines, n - 1, chars).value, lines[n - 1], n - 1, key, place, chars);
      assert DefinedAt(lines, n - 1, key, place, chars) <==>
        Defines(lines[n - 1], Start(lines, n - 1, chars), key, place);
    }
  }

  /** The instruction that follows a line's labels starts at the line's place. */
  lemma {:induction false} LineStartsInstruction(lines: seq<Line>, k: nat, n: nat, chars: map<string, C.i32>)
    requires k <= n <= |lines| && Entered(lines, n, chars).Some?
    ensures Entered(lines, k, chars).Some?
    ensures var t := Entered(lines, n, chars).value;
      var c := CountBefore(lines, k, chars);
      && c <= |t.code| && Start(lines, k, chars) == Upto(t.code, t.size, c)
      && (forall i :: c <= i < |t.code| ==> t.code[i].line >= k)
      && forall i :: 0 <= i < c ==> t.code[i].line < k
    decreases n
  {
    hide Enter, Laid;
    if k < n {
      LineStartsInstruction(lines, k, n - 1, chars);
      EnteredLaid(lines, n - 1, chars);
      EnterKeepsLaid(Entered(lines, n - 1, chars).value, lines[n - 1], n - 1, chars);
    } else {
      LinesBefore(lines, n, chars);
    }
  }

  lemma {:induction false} LinesBefore(lines: seq<Line>, n: nat, chars: map<string, C.i32>)
    requires n <= |lines| && Entered(lines, n, chars).Some?
    ensures var t := Entered(lines, n, chars).value; forall i :: 0 <= i < |t.code| ==> t.code[i].line < n
  {
    hide Enter, Laid;
    if n > 0 {
      LinesBefore(lines, n - 1, chars);
      EnteredLaid(lines, n - 1, chars);
      EnterKeepsLaid(Entered(lines, n - 1, chars).value, lines[n - 1], n - 1, chars);
    }
  }

  ghost predicate AnonymousAt(lines: seq<Line>, k: nat) { k < |lines| && lines[k].lead == Some(Anonymous) }

  ghost predicate Marks(lines: seq<Line>, k: nat, place: int, chars: map<string, C.i32>) {
    AnonymousAt(lines, k) && Entered(lines, k, chars).Some? && place == Start(lines, k, chars)
  }

  ghost predicate Listed(list: seq<(nat, nat)>, k: nat) { exists j :: 0 <= j < |list| && list[j].0 == k }

  lemma Within(lines: seq<Line>, m: nat)
    ensures AnonymousAt(lines, m) ==> m < |lines|
  {
  }

  /** Between neighbours of an ordered list there is nothing. */
  lemma NothingBetween(list: seq<(nat, nat)>, j: nat, m: nat)
    requires Ordered(list) && j <= |list| && (forall i :: 0 <= i < j ==> list[i].0 < m) && (forall i :: j <= i < |list| ==> m < list[i].0)
    ensures !Listed(list, m)
  {
  }

  /** The list of anonymous labels: each anonymous line once, in order, with its place. */
  lemma {:induction false} AnonymousListed(lines: seq<Line>, n: nat, chars: map<string, C.i32>)
    requires n <= |lines| && Entered(lines, n, chars).Some?
    ensures var list := Entered(lines, n, chars).value.anonymous;
      && (forall j :: 0 <= j < |list| ==> list[j].0 < n && Marks(lines, list[j].0, list[j].1, chars))
      && (forall i, j :: 0 <= i < j < |list| ==> list[i].0 < list[j].0)
      && forall k :: 0 <= k < n && AnonymousAt(lines, k) ==> Listed(list, k)
  {
    hide Enter;
    if n > 0 {
      AnonymousListed(lines, n - 1, chars);
      var t := Entered(lines, n - 1, chars).value;
      var last := (n - 1, t.size);
      EnterBinds(t, lines[n - 1], n - 1, "", 0, chars);
      if AnonymousAt(lines, n - 1) {
        assert Marks(lines, n - 1, t.size, chars);
        hide Marks, Entered, AnonymousAt, Listed;
        forall k | 0 <= k < n && AnonymousAt(lines, k)
          ensures Listed(t.anonymous + [last], k)
        {
          ListedAppend(t.anonymous, last, k);
        }
      } else {
        assert t.anonymous + [] == t.anonymous;
      }
    }
  }

  lemma ListedAppend(list: seq<(nat, nat)>, p: (nat, nat), k: nat)
    ensures Listed(list + [p], k) <==> Listed(list, k) || p.0 == k
  {
    var more := list + [p];
    if Listed(list, k) {
      var j :| 0 <= j < |list| && list[j].0 == k;
      assert more[j].0 == k;
    }
    assert more[|list|] == p;
  }

  ghost predicate Ordered(list: seq<(nat, nat)>) { forall i, j :: 0 <= i < j < |list| ==> list[i].0 < list[j].0 }

  lemma {:induction false} FirstAfterExact(list: seq<(nat, nat)>, line: nat)
    requires Ordered(list)
    ensures FirstAfter(list, line).None? ==> forall j :: 0 <= j < |list| ==> list[j].0 <= line
    ensures FirstAfter(list, line).Some? ==>
      exists j :: 0 <= j < |list| && list[j].1 == FirstAfter(list, line).value && list[j].0 > line
        && forall i :: 0 <= i < j ==> list[i].0 <= line
  {
    if list != [] {
      if list[0].0 > line {
        assert list[0].1 == FirstAfter(list, line).value;
      } else {
        FirstAfterExact(list[1..], line);
        if FirstAfter(list, line).Some? {
          var j :| 0 <= j < |list| - 1 && list[1..][j].1 == FirstAfter(list, line).value && list[1..][j].0 > line
            && forall i :: 0 <= i < j ==> list[1..][i].0 <= line;
          assert list[j + 1] == list[1..][j];
          assert forall i :: 1 <= i < j + 1 ==> list[i] == list[1..][i - 1];
        } else {
          assert forall i :: 1 <= i < |list| ==> list[i] == list[1..][i - 1];
        }
      }
    }
  }

  lemma {:induction false} LastBeforeExact(list: seq<(nat, nat)>, line: nat)
    requires Ordered(list)
    ensures LastBefore(list, line).None? ==> forall j :: 0 <= j < |list| ==> list[j].0 >= line
    ensures LastBefore(list, line).Some? ==>
      exists j :: 0 <= j < |list| && list[j].1 == LastBefore(list, line).value && list[j].0 < line
        && forall i :: j < i < |list| ==> list[i].0 >= line
  {
    if list != [] {
      var n := |list| - 1;
      if list[n].0 < line {
        assert list[n].1 == LastBefore(list, line).value;
      } else {
        LastBeforeExact(list[..n], line);
      }
    }
  }

  // ----- branches -----

  ghost predicate Defined(lines: seq<Line>, key: string, place: int, chars: map<string, C.i32>) {
    exists k :: DefinedAt(lines, k, key, place, chars)
  }

  ghost predicate NearestAfter(lines: seq<Line>, line: nat, place: int, chars: map<string, C.i32>) {
    exists k :: line < k && Marks(lines, k, place, chars) && forall m :: line < m < k ==> !AnonymousAt(lines, m)
  }

  ghost predicate NearestBefore(lines: seq<Line>, line: nat, place: int, chars: map<string, C.i32>) {
    exists k :: 0 <= k < line && Marks(lines, k, place, chars) && forall m :: k < m < line ==> !AnonymousAt(lines, m)
  }

  /** The place an operand names: a line by label, the nearest anonymous line either way, or an offset in the block. */
  ghost predicate Names(lines: seq<Line>, ins: Coded, t: Term, chars: map<string, C.i32>, place: int) {
    match t.atom
    case Local(name) => Defined(lines, C.Normalize(name), place - t.addend, chars)
    case NextAnonymous => NearestAfter(lines, ins.line, place - t.addend, chars)
    case LastAnonymous => NearestBefore(lines, ins.line, place - t.addend, chars)
    case Current => place == ins.offset + t.addend
    case Number(value) => t.addend == 0 ==> place == Select(t.selector, value)
    case External(_) => false
  }

  /** What the assembler resolves locally is the place the operand names. */
  lemma TargetNamed(lines: seq<Line>, ins: Coded, t: Term, chars: map<string, C.i32>, table: Table)
    requires Entered(lines, |lines|, chars) == Some(table)
    requires LocalTarget(t, ins, table, C.Scope(table.constants, chars)).Some?
    ensures Names(lines, ins, t, chars, LocalTarget(t, ins, table, C.Scope(table.constants, chars)).value)
  {
    hide Entered, C.Normalize, DefinedAt, Numeric;
    var place := LocalTarget(t, ins, table, C.Scope(table.constants, chars)).value;
    match t.atom
    case Local(name) =>
      LabelMeansLine(lines, |lines|, C.Normalize(name), place - t.addend, chars);
    case NextAnonymous => NextNamed(lines, ins.line, chars, table);
    case LastAnonymous => LastNamed(lines, ins.line, chars, table);
    case Current =>
    case Number(value) => NumberTarget(t, C.Scope(table.constants, chars));
    case External(_) =>
  }

  lemma NumberTarget(t: Term, scope: C.Scope)
    requires t.atom.Number? && Numeric(t, scope).Some?
    ensures t.addend == 0 ==> Numeric(t, scope).value == Select(t.selector, t.atom.value)
  {
  }

  lemma NextNamed(lines: seq<Line>, line: nat, chars: map<string, C.i32>, table: Table)
    requires Entered(lines, |lines|, chars) == Some(table) && FirstAfter(table.anonymous, line).Some?
    ensures NearestAfter(lines, line, FirstAfter(table.anonymous, line).value, chars)
  {
    hide Entered, Marks, Listed, AnonymousAt;
    var list := table.anonymous;
    AnonymousListed(lines, |lines|, chars);
    FirstAfterExact(list, line);
    var j :| 0 <= j < |list| && list[j].1 == FirstAfter(list, line).value && list[j].0 > line
      && forall i :: 0 <= i < j ==> list[i].0 <= line;
    forall m | line < m < list[j].0
      ensures !AnonymousAt(lines, m)
    {
      NothingBetween(list, j, m);
      assert AnonymousAt(lines, m) ==> m < |lines| by { Within(lines, m); }
    }
    assert Marks(lines, list[j].0, list[j].1, chars);
  }

  lemma LastNamed(lines: seq<Line>, line: nat, chars: map<string, C.i32>, table: Table)
    requires Entered(lines, |lines|, chars) == Some(table) && LastBefore(table.anonymous, line).Some?
    ensures NearestBefore(lines, line, LastBefore(table.anonymous, line).value, chars)
  {
    hide Entered, Marks, Listed, AnonymousAt;
    var list := table.anonymous;
    AnonymousListed(lines, |lines|, chars);
    LastBeforeExact(list, line);
    var j :| 0 <= j < |list| && list[j].1 == LastBefore(list, line).value && list[j].0 < line
      && forall i :: j < i < |list| ==> list[i].0 >= line;
    forall m | list[j].0 < m < line
      ensures !AnonymousAt(lines, m)
    {
      NothingBetween(list, j + 1, m);
      assert AnonymousAt(lines, m) ==> m < |lines| by { Within(lines, m); }
    }
    assert Marks(lines, list[j].0, list[j].1, chars);
  }

  /**
   * Every relative branch of an accepted block, read back as the flow analysis reads it, goes to the place its
   * operand names, and never to a truncated displacement.
   */
  lemma BranchExact(lines: seq<Line>, chars: map<string, C.i32>, p: Program, i: nat)
    requires Accepted(lines, chars, p) && NoneWide(p.table, |p.table.code|, chars)
    requires i < |p.table.code| && p.table.code[i].mode == Relative
    ensures var ins := p.table.code[i];
      var t := OperandTerm(ins, C.Scope(p.table.constants, chars));
      && ins.offset + 1 < |p.bytes| && t.Some?
      && Names(lines, ins, t.value, chars, Flow.BranchTarget(p.bytes, Listing(p.table.code)[i]))
  {
    hide Entered, EmittedUpto, Template, Decode, SelectsWide, Assembled, OperandTerm, LocalTarget, Names, Laid,
         EmitBranch;
    AcceptedParts(lines, chars, p);
    var ins := p.table.code[i];
    var scope := C.Scope(p.table.constants, chars);
    BytesAt(p.table, |p.table.code|, i, chars);
    hide EmittedUpto, NoneWide;
    var t := OperandTerm(ins, scope).value;
    BranchByte(t, ins, p.table, scope);
    var place := LocalTarget(t, ins, p.table, scope).value;
    var displacement := place - (ins.offset + 2);
    assert p.bytes[ins.offset + 1] == displacement % 256 by {
      assert p.bytes[ins.offset + 1..ins.offset + 2][0] == p.bytes[ins.offset + 1];
    }
    TargetNamed(lines, ins, t, chars, p.table);
  }

  /** A branch whose place is missing or more than a signed byte away is refused. */
  lemma FarBranchRefused(lines: seq<Line>, chars: map<string, C.i32>, table: Table, i: nat)
    requires Entered(lines, |lines|, chars) == Some(table) && i < |table.code| && table.code[i].mode == Relative
    requires var ins := table.code[i];
      var scope := C.Scope(table.constants, chars);
      var t := OperandTerm(ins, scope);
      t.None? || forall place :: LocalTarget(t.value, ins, table, scope) == Some(place) ==>
        !(-126 <= place - ins.offset < 130)
    ensures Assembled(lines, chars).None?
  {
    hide Entered, OperandTerm, LocalTarget;
    assert EmitOperand(table.code[i], table, chars).None?;
    hide EmitOperand;
    assert EmittedUpto(table, i + 1, chars).None?;
    StaysUnemitted(table, i + 1, |table.code|, chars);
  }

  // ----- the exception -----

  /** L: LDA <L */
  function WideBlock(): seq<Line> {
    [Line(Some(Named("L")),
          Code(None, Some(Source(LDA, NoSuffix, None, Assembler.Operand.Bare(Expr(Some(Low), Plain(C.Name("L"))))))))]
  }

  lemma LoadModes(scope: C.Scope)
    requires scope.constants == map[]
    ensures SelectInstruction(WideBlock()[0].content.ins.value, scope).Some?
    ensures SelectInstruction(WideBlock()[0].content.ins.value, scope).value.1 == Absolute
  {
    hide Rows00, Rows20, Rows40, Rows60, Rows80, RowsC0, RowsE0, OpcodeFor;
    OpcodeRoundTrip(Op(LDA, Relative));
    OpcodeRoundTrip(Op(LDA, Absolute));
    assert Decode(0xAD) == Some(Op(LDA, Absolute));
    hide Decode;
    assert !IsBranch(LDA);
    assert Choose(LDA, [Absolute]).Some?;
  }

  /** Pass one counts three bytes for this block and pass two emits two. */
  lemma WideBlockIsShort(chars: map<string, C.i32>)
    ensures var lines := WideBlock();
      var r := Assembled(lines, chars);
      r.Some? && r.value.table.size == 3 && |r.value.bytes| == 2
  {
    hide SelectInstruction, Decode, Template;
    var lines := WideBlock();
    var s := lines[0].content.ins.value;
    LoadModes(C.Scope(map[], chars));
    assert Entered(lines, 0, chars) == Some(EMPTY);
    var t := Entered(lines, 1, chars).value;
    var ins := t.code[0];
    assert ins == Coded(LDA, s.operand, 0, 0, ins.opcode, Absolute) && t.labels == map[C.Normalize("L") := 0]
      && t.constants == map[];
    var e := EmitOperand(ins, t, chars);
    assert OperandTerm(ins, C.Scope(map[], chars)) == Some(Term(Some(Low), Local("L"), 0));
    assert e.Some?;
    OperandWidth(ins, t, chars);
    assert EmittedUpto(t, 0, chars) == Some(Emitted([], []));
    EmittedStep(t, 0, chars);
    TemplateOfNothing();
  }
}
