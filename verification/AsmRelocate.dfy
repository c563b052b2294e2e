/**
 * The two ways an assembled block becomes final bytes: resolving its items in order, or filling its relocations into
 * its bytes.
 */
module AsmRelocate {
  import opened Wrappers
  import opened Isa
  import opened Assembler
  import opened AsmLayout
  import C = ConstExpr

  /**
   * A symbol's address, either fixed or moving with the program; only the latter must stay inside memory when offset.
   */
  datatype Place = Fixed(address: nat) | Moving(address: nat)

  type Symbols = map<string, Place>

  function Fit(n: int): Option<nat> { if 0 <= n < 0x1_0000 then Some(n) else None }

  function LowByte(n: nat): byte { n % 256 }

  function HighByte(n: nat): byte { n / 256 % 256 }

  // ----- resolving the items -----

  /** Bytes so far, and how many operand bytes the last opcode still waits for. */
  datatype Stream = Stream(out: seq<byte>, pending: nat)

  function Less(pending: nat, taken: nat): nat { if pending > taken then pending - taken else 0 }

  function PutByte(s: Stream, b: byte): Stream {
    Stream(s.out + [b], if s.pending > 0 then s.pending - 1 else if Decode(b).Some? then Length(Decode(b).value.mode) - 1 else 0)
  }

  function PutAddress(s: Stream, selector: Option<Selector>, value: nat): Stream {
    match selector
    case Some(Low) => Stream(s.out + [LowByte(value)], Less(s.pending, 1))
    case Some(High) => Stream(s.out + [HighByte(value)], Less(s.pending, 1))
    case None =>
      if s.pending == 1 then Stream(s.out + [LowByte(value)], 0)
      else Stream(s.out + [LowByte(value), HighByte(value)], Less(s.pending, 2))
  }

  /** An address takes the bytes its opcode still waits for, both or the one selected, and no longer waits for them. */
  lemma AddressCounted(s: Stream, selector: Option<Selector>, value: nat)
    ensures var r := PutAddress(s, selector, value);
      var put := if selector.Some? || s.pending == 1 then 1 else 2;
      && s.out <= r.out && |r.out| == |s.out| + put && r.pending == (if s.pending > put then s.pending - put else 0)
      && r.out[|s.out|] == (if selector == Some(High) then value / 256 % 256 else value % 256)
      && (put == 2 ==> r.out[|s.out| + 1] == value / 256 % 256)
  {
  }

  function PutItem(s: Stream, item: Item, base: nat, symbols: Symbols): Option<Stream> {
    match item
    case Byte(value) => Some(PutByte(s, value))
    case Relative16(selector, offset) =>
      var value := Fit(base + |s.out| + offset);
      if value.None? then None else Some(PutAddress(s, selector, value.value))
    case Symbolic(selector, name, offset) =>
      if C.Normalize(name) !in symbols then None
      else
        match symbols[C.Normalize(name)]
        case Fixed(address) => Some(PutAddress(s, selector, (address + offset) % 0x1_0000))
        case Moving(address) =>
          var value := Fit(address + offset);
          if value.None? then None else Some(PutAddress(s, selector, value.value))
  }

  function Resolved(items: seq<Item>, base: nat, symbols: Symbols): Option<Stream> {
    if items == [] then Some(Stream([], 0))
    else
      var before := Resolved(items[..|items| - 1], base, symbols);
      if before.None? then None else PutItem(before.value, items[|items| - 1], base, symbols)
  }

  // ----- filling the relocations -----

  function RelocValue(r: Reloc, base: nat, symbols: Symbols): Option<nat> {
    var at: Option<nat> := match r.target
      case Symbol(name) => if C.Normalize(name) in symbols then Some(symbols[C.Normalize(name)].address) else None
      case InlineOffset(offset) => Some((base + offset) % 0x1_0000)
      case AbsoluteAt(address) => Some(address);
    if at.None? then None
    else
      var value := Fit(at.value + r.addend);
      if value.None? || ((r.zeroPage || r.kind == Byte8) && value.value > 255) then None else value
  }

  function KindWidth(kind: Kind): nat { if kind == Absolute16 then 2 else 1 }

  function Patch(kind: Kind, value: nat): (p: seq<byte>)
    ensures |p| == KindWidth(kind)
  {
    match kind
    case Absolute16 => [LowByte(value), HighByte(value)]
    case Byte8 | Low8 => [LowByte(value)]
    case High8 => [HighByte(value)]
  }

  datatype Filling = Filling(out: seq<byte>, cursor: nat)

  /** Copy the bytes up to each relocation in turn and put its value in their place. */
  function Filled(bytes: seq<byte>, relocs: seq<Reloc>, base: nat, symbols: Symbols): (r: Option<Filling>)
    ensures r.Some? ==> r.value.cursor <= |bytes|
  {
    if relocs == [] then Some(Filling([], 0))
    else
      var before := Filled(bytes, relocs[..|relocs| - 1], base, symbols);
      var last := relocs[|relocs| - 1];
      var value := RelocValue(last, base, symbols);
      if before.None? || value.None? || !(before.value.cursor <= last.offset <= last.offset + KindWidth(last.kind) <= |bytes|) then None
      else Some(Filling(before.value.out + bytes[before.value.cursor..last.offset] + Patch(last.kind, value.value),
                        last.offset + KindWidth(last.kind)))
  }

  function Relocated(bytes: seq<byte>, relocs: seq<Reloc>, base: nat, symbols: Symbols): Option<seq<byte>> {
    var f := Filled(bytes, relocs, base, symbols);
    if f.None? then None else Some(f.value.out + bytes[f.value.cursor..])
  }

  // ----- one operand, both ways -----

  ghost predicate Usable(r: Reloc, base: nat, symbols: Symbols) {
    RelocValue(r, base, symbols).Some? && (r.target.InlineOffset? ==> base + r.target.offset < 0x1_0000)
  }

  /** What an operand's bytes become: its relocation's value, or the bytes as they are. */
  function Final(e: Emitted, base: nat, symbols: Symbols): seq<byte>
    requires |e.relocs| <= 1 && forall r :: r in e.relocs ==> RelocValue(r, base, symbols).Some?
  {
    if e.relocs == [] then Template(e.items)
    else Patch(e.relocs[0].kind, RelocValue(e.relocs[0], base, symbols).value)
  }

  /** An operand has at most one relocation, at the operand's own offset and exactly as wide as its bytes. */
  ghost predicate OneReloc(ins: Coded, e: Emitted) {
    && |e.relocs| <= 1
    && (|e.relocs| == 1 ==> e.relocs[0].offset == Short(ins.offset + 1) && KindWidth(e.relocs[0].kind) == |Template(e.items)|)
  }

  lemma OperandReloc(ins: Coded, table: Table, chars: map<string, C.i32>)
    requires EmitOperand(ins, table, chars).Some? && !SelectsWide(ins, C.Scope(table.constants, chars))
    ensures OneReloc(ins, EmitOperand(ins, table, chars).value)
  {
    OperandWidth(ins, table, chars);
    hide Template, OperandTerm, Numeric, LocalTarget, C.Normalize, EmitNumber, UseOf, NeedsZeroPage;
  }

  function PutItems(s: Stream, items: seq<Item>, base: nat, symbols: Symbols): Option<Stream> {
    if items == [] then Some(s)
    else
      var before := PutItems(s, items[..|items| - 1], base, symbols);
      if before.None? then None else PutItem(before.value, items[|items| - 1], base, symbols)
  }

  lemma {:induction false} ResolvedAppend(a: seq<Item>, b: seq<Item>, base: nat, symbols: Symbols)
    requires Resolved(a, base, symbols).Some?
    ensures Resolved(a + b, base, symbols) == PutItems(Resolved(a, base, symbols).value, b, base, symbols)
  {
    hide PutItem;
    if b == [] {
      assert a + b == a;
    } else {
      var n := |b| - 1;
      ResolvedAppend(a, b[..n], base, symbols);
      assert (a + b)[..|a + b| - 1] == a + b[..n] && (a + b)[|a + b| - 1] == b[n];
    }
  }

  lemma PutOne(s: Stream, item: Item, base: nat, symbols: Symbols)
    ensures PutItems(s, [item], base, symbols) == PutItem(s, item, base, symbols)
  {
    hide PutItem;
    assert [item][..0] == [];
  }

  lemma PutTwo(s: Stream, p: Item, q: Item, base: nat, symbols: Symbols)
    requires PutItem(s, p, base, symbols).Some?
    ensures PutItems(s, [p, q], base, symbols) == PutItem(PutItem(s, p, base, symbols).value, q, base, symbols)
  {
    hide PutItem;
    assert [p, q][..1] == [p];
    PutOne(s, p, base, symbols);
  }

  ghost predicate Waiting(s: Stream, ins: Coded) {
    s.pending == Length(ins.mode) - 1 && |s.out| == ins.offset + 1 < 0x1_0000
  }

  /** The operand's items put out exactly what its relocation, or its bytes, say. */
  ghost predicate Agrees(s: Stream, e: Emitted, base: nat, symbols: Symbols) {
    && |e.relocs| <= 1
    && ((forall r :: r in e.relocs ==> Usable(r, base, symbols)) ==>
          PutItems(s, e.items, base, symbols) == Some(Stream(s.out + Final(e, base, symbols), 0)))
  }

  lemma BranchAgrees(t: Term, ins: Coded, table: Table, scope: C.Scope, s: Stream, base: nat, symbols: Symbols)
    requires EmitBranch(t, ins, table, scope).Some? && Waiting(s, ins) && ins.mode == Relative
    ensures Agrees(s, EmitBranch(t, ins, table, scope).value, base, symbols)
  {
    hide LocalTarget, Template, Decode;
    BranchByte(t, ins, table, scope);
    var e := EmitBranch(t, ins, table, scope).value;
    PutOne(s, e.items[0], base, symbols);
  }

  lemma ValueAgrees(v: int, ins: Coded, s: Stream, base: nat, symbols: Symbols)
    requires Length(ins.mode) > 1 && EmitValue(v, Length(ins.mode) - 1, ins).Some? && Waiting(s, ins)
    ensures Agrees(s, EmitValue(v, Length(ins.mode) - 1, ins).value, base, symbols)
  {
    hide Template, Decode, UseOf, NeedsZeroPage;
    var e := EmitValue(v, Length(ins.mode) - 1, ins).value;
    if Length(ins.mode) == 2 {
      PutOne(s, e.items[0], base, symbols);
      TemplateOfByte(v);
    } else {
      PutTwo(s, e.items[0], e.items[1], base, symbols);
      TemplateAppend([e.items[0]], [e.items[1]]);
      TemplateOfByte(v % 256);
      TemplateOfByte(v / 256);
      assert e.items == [e.items[0]] + [e.items[1]];
      assert e.items == [e.items[0], e.items[1]];
      assert ins.mode != Immediate && e.relocs[0] in e.relocs;
      assert LowByte(v) == v % 256 && HighByte(v) == v / 256;
      assert s.out + [LowByte(v)] + [HighByte(v)] == s.out + [LowByte(v), HighByte(v)];
    }
  }

  lemma InlineAgrees(target: int, addend: int, ins: Coded, selector: Option<Selector>, s: Stream, base: nat,
      symbols: Symbols)
    requires Length(ins.mode) > 1 && EmitInline(target, addend, Length(ins.mode) - 1, ins, selector).Some?
      && Waiting(s, ins)
    requires Length(ins.mode) == 3 ==> selector.None?
    ensures Agrees(s, EmitInline(target, addend, Length(ins.mode) - 1, ins, selector).value, base, symbols)
  {
    hide Template, UseOf;
    var e := EmitInline(target, addend, Length(ins.mode) - 1, ins, selector).value;
    PutOne(s, e.items[0], base, symbols);
    assert e.relocs[0] in e.relocs;
  }

  lemma SymbolValue(s: Stream, selector: Option<Selector>, r: Reloc, base: nat, symbols: Symbols)
    requires r.target.Symbol? && RelocValue(r, base, symbols).Some?
    ensures PutItem(s, Symbolic(selector, r.target.name, r.addend), base, symbols)
      == Some(PutAddress(s, selector, RelocValue(r, base, symbols).value))
  {
    hide C.Normalize, PutAddress;
  }

  lemma SymbolAgrees(t: Term, name: string, ins: Coded, s: Stream, base: nat, symbols: Symbols)
    requires Length(ins.mode) > 1 && EmitSymbol(t, name, Length(ins.mode) - 1, ins).Some? && Waiting(s, ins)
    ensures Agrees(s, EmitSymbol(t, name, Length(ins.mode) - 1, ins).value, base, symbols)
  {
    hide Template, UseOf, NeedsZeroPage, C.Normalize, PutItem, RelocValue;
    var e := EmitSymbol(t, name, Length(ins.mode) - 1, ins).value;
    PutOne(s, e.items[0], base, symbols);
    var r := e.relocs[0];
    assert r in e.relocs;
    if RelocValue(r, base, symbols).Some? { SymbolValue(s, e.items[0].selector, r, base, symbols); }
  }

  lemma OperandAgrees(ins: Coded, table: Table, chars: map<string, C.i32>, s: Stream, base: nat, symbols: Symbols)
    requires EmitOperand(ins, table, chars).Some? && !SelectsWide(ins, C.Scope(table.constants, chars))
      && Waiting(s, ins)
    ensures Agrees(s, EmitOperand(ins, table, chars).value, base, symbols)
  {
    hide Agrees, OperandTerm, Numeric, LocalTarget, EmitBranch, EmitValue, EmitInline, EmitSymbol, C.Normalize;
    if Length(ins.mode) == 1 {
      NothingAgrees(s, base, symbols);
    } else {
      var scope := C.Scope(table.constants, chars);
      var t, width := OperandTerm(ins, scope).value, Length(ins.mode) - 1;
      if ins.mode == Relative {
        BranchAgrees(t, ins, table, scope, s, base, symbols);
      } else if Numeric(t, scope).Some? {
        ValueAgrees(Numeric(t, scope).value, ins, s, base, symbols);
      } else {
        match t.atom
        case Local(name) =>
          var key := C.Normalize(name);
          if key in table.labels {
            InlineAgrees(table.labels[key], t.addend, ins, t.selector, s, base, symbols);
          } else {
            SymbolAgrees(t, name, ins, s, base, symbols);
          }
        case External(name) => SymbolAgrees(t, name, ins, s, base, symbols);
        case Number(_) =>
        case _ => InlineAgrees(LocalTarget(t, ins, table, scope).value, 0, ins, t.selector, s, base, symbols);
      }
    }
  }

  lemma NothingAgrees(s: Stream, base: nat, symbols: Symbols)
    requires s.pending == 0
    ensures Agrees(s, Emitted([], []), base, symbols)
  {
    TemplateOfNothing();
    assert s.out + [] == s.out;
  }

  // ----- the whole block -----

  /** Each relocation of a block stays inside the operand of one instruction, in order, and none reaches an opcode. */
  ghost predicate Within(relocs: seq<Reloc>, upto: nat) {
    && (forall k :: 0 <= k < |relocs| ==> relocs[k].offset + KindWidth(relocs[k].kind) <= upto)
    && forall j, k :: 0 <= j < k < |relocs| ==> relocs[j].offset + KindWidth(relocs[j].kind) <= relocs[k].offset
  }

  /** Bytes past the last relocation do not matter to the filling. */
  lemma {:induction false} FilledLonger(bytes: seq<byte>, more: seq<byte>, relocs: seq<Reloc>, base: nat,
      symbols: Symbols)
    requires Filled(bytes, relocs, base, symbols).Some?
    ensures Filled(bytes + more, relocs, base, symbols) == Filled(bytes, relocs, base, symbols)
  {
    hide RelocValue, Patch, KindWidth;
    if relocs != [] {
      var init := relocs[..|relocs| - 1];
      FilledLonger(bytes, more, init, base, symbols);
      var f := Filled(bytes, init, base, symbols).value;
      var last := relocs[|relocs| - 1];
      assert (bytes + more)[f.cursor..last.offset] == bytes[f.cursor..last.offset];
    }
  }

  /** Adding an instruction without a relocation. */
  lemma RelocatedPlain(bytes: seq<byte>, more: seq<byte>, relocs: seq<Reloc>, base: nat, symbols: Symbols)
    requires Relocated(bytes, relocs, base, symbols).Some?
    ensures Relocated(bytes + more, relocs, base, symbols) == Some(Relocated(bytes, relocs, base, symbols).value + more)
  {
    FilledLonger(bytes, more, relocs, base, symbols);
    var f := Filled(bytes, relocs, base, symbols).value;
    assert (bytes + more)[f.cursor..] == bytes[f.cursor..] + more;
    assert (f.out + bytes[f.cursor..]) + more == f.out + (bytes[f.cursor..] + more);
  }

  lemma FilledSnoc(bytes: seq<byte>, relocs: seq<Reloc>, r: Reloc, base: nat, symbols: Symbols)
    requires Filled(bytes, relocs, base, symbols).Some? && RelocValue(r, base, symbols).Some?
    requires Filled(bytes, relocs, base, symbols).value.cursor <= r.offset && r.offset + KindWidth(r.kind) <= |bytes|
    ensures var f := Filled(bytes, relocs, base, symbols).value;
      Filled(bytes, relocs + [r], base, symbols)
        == Some(Filling(f.out + bytes[f.cursor..r.offset] + Patch(r.kind, RelocValue(r, base, symbols).value), r.offset + KindWidth(r.kind)))
  {
    hide RelocValue, Patch, KindWidth;
    assert (relocs + [r])[..|relocs + [r]| - 1] == relocs;
  }

  /** Adding an instruction whose operand is filled. */
  lemma RelocatedPatched(bytes: seq<byte>, opcode: byte, operand: seq<byte>, relocs: seq<Reloc>, r: Reloc, base: nat,
      symbols: Symbols)
    requires Relocated(bytes, relocs, base, symbols).Some? && RelocValue(r, base, symbols).Some?
    requires r.offset == |bytes| + 1 && KindWidth(r.kind) == |operand|
    ensures Relocated(bytes + [opcode] + operand, relocs + [r], base, symbols)
      == Some(Relocated(bytes, relocs, base, symbols).value + [opcode] + Patch(r.kind, RelocValue(r, base, symbols).value))
  {
    hide RelocValue, Patch, KindWidth, Filled;
    var all := bytes + [opcode] + operand;
    Associate(bytes, [opcode], operand);
    FilledLonger(bytes, [opcode] + operand, relocs, base, symbols);
    var f := Filled(bytes, relocs, base, symbols).value;
    var patch := Patch(r.kind, RelocValue(r, base, symbols).value);
    FilledSnoc(all, relocs, r, base, symbols);
    assert all[f.cursor..r.offset] == bytes[f.cursor..] + [opcode];
    Associate(f.out, bytes[f.cursor..], [opcode]);
    var out := f.out + all[f.cursor..r.offset] + patch;
    assert out + all[r.offset + KindWidth(r.kind)..] == out;
  }

  ghost predicate AllUsable(relocs: seq<Reloc>, base: nat, symbols: Symbols) {
    forall r :: r in relocs ==> Usable(r, base, symbols)
  }

  /**
   * After `n` instructions: both ways have put out the same bytes, as many as were laid out, and no operand is
   * pending.
   */
  ghost predicate InStep(table: Table, n: nat, chars: map<string, C.i32>, base: nat, symbols: Symbols)
    requires n <= |table.code| && EmittedUpto(table, n, chars).Some?
  {
    var e := EmittedUpto(table, n, chars).value;
    AllUsable(e.relocs, base, symbols) ==>
      var r := Resolved(e.items, base, symbols);
      && r.Some? && r.value.pending == 0 && |r.value.out| == Upto(table.code, table.size, n)
      && Relocated(Template(e.items), e.relocs, base, symbols) == Some(r.value.out)
  }

  lemma OpcodeItem(s: Stream, ins: Coded, base: nat, symbols: Symbols)
    requires s.pending == 0 && Decode(ins.opcode) == Some(Op(ins.mnemonic, ins.mode))
    ensures PutItem(s, Byte(ins.opcode), base, symbols) == Some(Stream(s.out + [ins.opcode], Length(ins.mode) - 1))
  {
    hide Decode;
  }

  lemma PutAfter(s: Stream, first: Item, rest: seq<Item>, base: nat, symbols: Symbols)
    requires PutItem(s, first, base, symbols).Some?
    ensures PutItems(s, [first] + rest, base, symbols)
      == PutItems(PutItem(s, first, base, symbols).value, rest, base, symbols)
    decreases |rest|
  {
    hide PutItem;
    if rest == [] {
      assert [first] + rest == [first];
      PutOne(s, first, base, symbols);
    } else {
      var n := |rest| - 1;
      PutAfter(s, first, rest[..n], base, symbols);
      SplitLast([first], rest);
    }
  }

  lemma UsableParts(a: seq<Reloc>, b: seq<Reloc>, base: nat, symbols: Symbols)
    requires AllUsable(a + b, base, symbols)
    ensures AllUsable(a, base, symbols) && AllUsable(b, base, symbols)
  {
    hide Usable;
    forall r | r in a ensures Usable(r, base, symbols) { assert r in a + b; }
    forall r | r in b ensures Usable(r, base, symbols) { assert r in a + b; }
  }

  /** One instruction's items, after those before it. */
  lemma InstructionResolves(ins: Coded, table: Table, chars: map<string, C.i32>, items: seq<Item>, base: nat,
      symbols: Symbols)
    requires EmitOperand(ins, table, chars).Some? && !SelectsWide(ins, C.Scope(table.constants, chars))
      && ins.offset + 1 < 0x1_0000
    requires Decode(ins.opcode) == Some(Op(ins.mnemonic, ins.mode))
    requires Resolved(items, base, symbols).Some? && Resolved(items, base, symbols).value.pending == 0
    requires |Resolved(items, base, symbols).value.out| == ins.offset
    requires AllUsable(EmitOperand(ins, table, chars).value.relocs, base, symbols)
    ensures var e := EmitOperand(ins, table, chars).value;
      && |e.relocs| <= 1 && (forall r :: r in e.relocs ==> RelocValue(r, base, symbols).Some?)
      && Resolved(items + [Byte(ins.opcode)] + e.items, base, symbols)
           == Some(Stream(Resolved(items, base, symbols).value.out + [ins.opcode] + Final(e, base, symbols), 0))
  {
    hide Decode, EmitOperand, SelectsWide, Template, Resolved, PutItem, PutItems, RelocValue, Patch, Final;
    var e := EmitOperand(ins, table, chars).value;
    var s := Resolved(items, base, symbols).value;
    Associate(items, [Byte(ins.opcode)], e.items);
    ResolvedAppend(items, [Byte(ins.opcode)] + e.items, base, symbols);
    OpcodeItem(s, ins, base, symbols);
    PutAfter(s, Byte(ins.opcode), e.items, base, symbols);
    OperandAgrees(ins, table, chars, Stream(s.out + [ins.opcode], Length(ins.mode) - 1), base, symbols);
  }

  /** One instruction's bytes, filled after those before it. */
  lemma InstructionFills(ins: Coded, e: Emitted, bytes: seq<byte>, relocs: seq<Reloc>, base: nat, symbols: Symbols)
    requires OneReloc(ins, e) && |bytes| == ins.offset && ins.offset + 1 < 0x1_0000
    requires Relocated(bytes, relocs, base, symbols).Some? && forall r :: r in e.relocs ==>
      RelocValue(r, base, symbols).Some?
    ensures Relocated(bytes + [ins.opcode] + Template(e.items), relocs + e.relocs, base, symbols)
      == Some(Relocated(bytes, relocs, base, symbols).value + [ins.opcode] + Final(e, base, symbols))
    ensures |Final(e, base, symbols)| == |Template(e.items)|
  {
    hide Template, Relocated, RelocValue, Patch;
    var before := Relocated(bytes, relocs, base, symbols).value;
    if e.relocs == [] {
      RelocatedPlain(bytes, [ins.opcode] + Template(e.items), relocs, base, symbols);
      Associate(bytes, [ins.opcode], Template(e.items));
      Associate(before, [ins.opcode], Template(e.items));
      assert relocs + e.relocs == relocs;
    } else {
      assert e.relocs == [e.relocs[0]];
      assert e.relocs[0] in e.relocs;
      RelocatedPatched(bytes, ins.opcode, Template(e.items), relocs, e.relocs[0], base, symbols);
    }
  }

  /** One instruction, both ways. */
  lemma InstructionInStep(ins: Coded, table: Table, chars: map<string, C.i32>, items: seq<Item>, relocs: seq<Reloc>,
      base: nat, symbols: Symbols)
    requires EmitOperand(ins, table, chars).Some? && !SelectsWide(ins, C.Scope(table.constants, chars))
      && ins.offset + 1 < 0x1_0000
    requires Decode(ins.opcode) == Some(Op(ins.mnemonic, ins.mode))
    requires Resolved(items, base, symbols).Some? && Resolved(items, base, symbols).value.pending == 0
    requires |Resolved(items, base, symbols).value.out| == ins.offset == |Template(items)|
    requires Relocated(Template(items), relocs, base, symbols) == Some(Resolved(items, base, symbols).value.out)
    requires AllUsable(EmitOperand(ins, table, chars).value.relocs, base, symbols)
    ensures var e := EmitOperand(ins, table, chars).value;
      var r := Resolved(items + [Byte(ins.opcode)] + e.items, base, symbols);
      && r.Some? && r.value.pending == 0 && |r.value.out| == ins.offset + Length(ins.mode)
      && Relocated(Template(items) + [ins.opcode] + Template(e.items), relocs + e.relocs, base, symbols) == Some(r.value.out)
  {
    hide Decode, EmitOperand, SelectsWide, Template, Resolved, Relocated, RelocValue, Final, OneReloc, AllUsable;
    InstructionResolves(ins, table, chars, items, base, symbols);
    OperandReloc(ins, table, chars);
    OperandWidth(ins, table, chars);
    InstructionFills(ins, EmitOperand(ins, table, chars).value, Template(items), relocs, base, symbols);
  }

  lemma {:induction false} BlockInStep(table: Table, n: nat, chars: map<string, C.i32>, base: nat, symbols: Symbols)
    requires Laid(table.code, table.size) && table.size < 0x1_0000
    requires n <= |table.code| && EmittedUpto(table, n, chars).Some? && NoneWide(table, n, chars)
    ensures InStep(table, n, chars, base, symbols)
  {
    hide EmitOperand, SelectsWide, Template, Resolved, Relocated, Laid, AllUsable, Decode;
    if n == 0 {
      EmptyInStep(base, symbols);
      FirstOffset(table.code, table.size);
    } else {
      var k := n - 1;
      EmittedStep(table, k, chars);
      NoneWideStep(table, k, chars);
      BlockInStep(table, k, chars, base, symbols);
      EmittedLength(table, k, chars);
      EmittedLength(table, n, chars);
      NextOffset(table.code, table.size, k);
      OffsetInside(table.code, table.size, k);
      var before := EmittedUpto(table, k, chars).value;
      var e := EmitOperand(table.code[k], table, chars).value;
      if AllUsable(before.relocs + e.relocs, base, symbols) {
        UsableParts(before.relocs, e.relocs, base, symbols);
        InstructionInStep(table.code[k], table, chars, before.items, before.relocs, base, symbols);
      }
    }
  }

  lemma EmptyInStep(base: nat, symbols: Symbols)
    ensures Resolved([], base, symbols) == Some(Stream([], 0)) && Relocated(Template([]), [], base, symbols) == Some([])
  {
    TemplateOfNothing();
    var nothing: seq<byte> := [];
    assert nothing + nothing[0..] == nothing;
  }

  lemma {:induction false} OffsetInside(code: seq<Coded>, size: nat, n: nat)
    requires Laid(code, size) && n < |code|
    ensures code[n].offset + Length(code[n].mode) <= size
    decreases |code| - n
  {
    hide Laid, Decode;
    NextOffset(code, size, n);
    if n + 1 < |code| { OffsetInside(code, size, n + 1); }
  }

  /**
   * The two encodings of an accepted block agree: whenever every relocation has a usable value (and no inline address
   * runs past the top of memory), resolving the items and filling the bytes both succeed with the same bytes.
   */
  lemma EncodingsAgree(lines: seq<Line>, chars: map<string, C.i32>, p: Program, base: nat, symbols: Symbols)
    requires Accepted(lines, chars, p) && NoneWide(p.table, |p.table.code|, chars) && p.table.size < 0x1_0000
    requires forall r :: r in p.relocs ==> Usable(r, base, symbols)
    ensures var out := Relocated(p.bytes, p.relocs, base, symbols);
      && out.Some? && |out.value| == |p.bytes|
      && Resolved(p.items, base, symbols).Some? && Resolved(p.items, base, symbols).value.out == out.value
  {
    hide Entered, EmittedUpto, Template, Assembled, Laid, NoneWide, Resolved, Relocated, Usable;
    AcceptedParts(lines, chars, p);
    BlockInStep(p.table, |p.table.code|, chars, base, symbols);
    EmittedLength(p.table, |p.table.code|, chars);
  }

  // ----- where the relocations are -----

  /** The relocation fills the whole operand of instruction `i`. */
  ghost predicate FillsOperand(table: Table, r: Reloc, i: nat) {
    i < |table.code| && r.offset == table.code[i].offset + 1 && KindWidth(r.kind) == Length(table.code[i].mode) - 1
  }

  ghost predicate InOperand(table: Table, r: Reloc) { exists i :: FillsOperand(table, r, i) }

  ghost predicate InOperands(table: Table, relocs: seq<Reloc>) { forall r :: r in relocs ==> InOperand(table, r) }

  lemma {:induction false} RelocsPlaced(table: Table, n: nat, chars: map<string, C.i32>)
    requires Laid(table.code, table.size) && table.size < 0x1_0000
    requires n <= |table.code| && EmittedUpto(table, n, chars).Some? && NoneWide(table, n, chars)
    ensures var relocs := EmittedUpto(table, n, chars).value.relocs;
      Within(relocs, Upto(table.code, table.size, n)) && InOperands(table, relocs)
  {
    hide EmitOperand, SelectsWide, Template, Laid, KindWidth, Decode, Within, InOperands;
    if n == 0 {
      NonePlaced(table, Upto(table.code, table.size, n));
    } else {
      var k := n - 1;
      EmittedStep(table, k, chars);
      NoneWideStep(table, k, chars);
      RelocsPlaced(table, k, chars);
      NextOffset(table.code, table.size, k);
      OffsetInside(table.code, table.size, k);
      OperandReloc(table.code[k], table, chars);
      OperandWidth(table.code[k], table, chars);
      OperandAlone(table.code[k], table, chars);
      PlacedAppend(table, k, EmittedUpto(table, k, chars).value.relocs,
          EmitOperand(table.code[k], table, chars).value.relocs);
    }
  }

  lemma NonePlaced(table: Table, upto: nat)
    ensures Within([], upto) && InOperands(table, [])
  {
  }

  lemma OperandAlone(ins: Coded, table: Table, chars: map<string, C.i32>)
    requires EmitOperand(ins, table, chars).Some?
    ensures EmitOperand(ins, table, chars).value.relocs != [] ==> Length(ins.mode) > 1
  {
    hide OperandTerm, EmitTerm;
  }

  lemma PlacedAppend(table: Table, n: nat, before: seq<Reloc>, here: seq<Reloc>)
    requires n < |table.code| && Within(before, table.code[n].offset) && InOperands(table, before) && |here| <= 1
    requires here != [] ==>
      here[0].offset == table.code[n].offset + 1 && KindWidth(here[0].kind) == Length(table.code[n].mode) - 1
    ensures Within(before + here, table.code[n].offset + Length(table.code[n].mode)) && InOperands(table, before + here)
  {
    hide KindWidth;
    if here != [] { assert FillsOperand(table, here[0], n); }
    hide InOperand;
    forall r | r in before + here
      ensures InOperand(table, r)
    {
    }
  }

  /** Patches of an accepted block are in order and disjoint, each exactly the operand of one instruction. */
  lemma PatchesDisjoint(lines: seq<Line>, chars: map<string, C.i32>, p: Program)
    requires Accepted(lines, chars, p) && NoneWide(p.table, |p.table.code|, chars) && p.table.size < 0x1_0000
    ensures Within(p.relocs, |p.bytes|) && InOperands(p.table, p.relocs)
  {
    hide Entered, EmittedUpto, Template, Assembled, Laid, NoneWide, InOperands;
    AcceptedParts(lines, chars, p);
    RelocsPlaced(p.table, |p.table.code|, chars);
    EmittedLength(p.table, |p.table.code|, chars);
  }
}
