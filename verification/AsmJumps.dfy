/** The jumps of an assembled block: the analysis knows every jump to a place in the block, and where it goes. */
module AsmJumps {
  import opened Wrappers
  import opened Isa
  import opened Assembler
  import opened AsmLayout
  import C = ConstExpr
  import Accept = AsmAccept
  import Uses = AsmUse

  /** A direct jump whose operand is resolved in the block: a label, the next or last anonymous one, or an offset. */
  ghost predicate LocalJump(ins: Coded, table: Table, chars: map<string, C.i32>) {
    var scope := C.Scope(table.constants, chars);
    var t := OperandTerm(ins, scope);
    && ins.mnemonic == JMP && ins.mode == Absolute && t.Some? && Numeric(t.value, scope).None?
    && match t.value.atom
       case Local(name) => C.Normalize(name) in table.labels
       case NextAnonymous | LastAnonymous | Current => true
       case Number(_) | External(_) => false
  }

  ghost predicate IsControl(r: Reloc) { r.target.InlineOffset? && r.use == Control }

  predicate DirectJump(ins: Coded) { ins.mnemonic == JMP && ins.mode == Absolute }

  /** The use of an operand is control exactly in a direct jump. */
  lemma ControlIsJump(ins: Coded)
    requires Decode(ins.opcode) == Some(Op(ins.mnemonic, ins.mode))
    ensures UseOf(ins.mnemonic, ins.mode) == Control <==> DirectJump(ins)
  {
    hide Decode, UseOf, Sensible;
    Uses.OtherUses(Op(ins.mnemonic, ins.mode));
  }

  ghost predicate NoControl(relocs: seq<Reloc>) { forall r :: r in relocs ==> !IsControl(r) }

  ghost predicate OneControl(relocs: seq<Reloc>, at: nat, place: int) {
    && |relocs| == 1 && relocs[0].offset == at && relocs[0].use == Control
    && relocs[0].target.InlineOffset? && relocs[0].target.offset == place
  }

  lemma BranchReloc(t: Term, ins: Coded, table: Table, scope: C.Scope)
    requires EmitBranch(t, ins, table, scope).Some?
    ensures EmitBranch(t, ins, table, scope).value.relocs == []
  {
    hide LocalTarget;
  }

  lemma ValueReloc(v: int, width: nat, ins: Coded)
    requires EmitValue(v, width, ins).Some?
    ensures |EmitValue(v, width, ins).value.relocs| <= 1 && NoControl(EmitValue(v, width, ins).value.relocs)
  {
    hide UseOf, NeedsZeroPage;
  }

  lemma SymbolReloc(t: Term, name: string, width: nat, ins: Coded)
    requires EmitSymbol(t, name, width, ins).Some?
    ensures |EmitSymbol(t, name, width, ins).value.relocs| <= 1
      && NoControl(EmitSymbol(t, name, width, ins).value.relocs)
  {
    hide UseOf, NeedsZeroPage, KindOf;
  }

  lemma InlineReloc(target: int, addend: int, width: nat, ins: Coded, selector: Option<Selector>)
    requires EmitInline(target, addend, width, ins, selector).Some?
    requires Decode(ins.opcode) == Some(Op(ins.mnemonic, ins.mode))
    ensures var relocs := EmitInline(target, addend, width, ins, selector).value.relocs;
      |relocs| <= 1 && if DirectJump(ins) then OneControl(relocs, Short(ins.offset + 1), target + addend) else NoControl(relocs)
  {
    hide UseOf, KindOf, Decode;
    ControlIsJump(ins);
  }

  ghost predicate Contributes(ins: Coded, table: Table, chars: map<string, C.i32>, relocs: seq<Reloc>) {
    var scope := C.Scope(table.constants, chars);
    var t := OperandTerm(ins, scope);
    && |relocs| <= 1
    && if LocalJump(ins, table, chars) then
         LocalTarget(t.value, ins, table, scope).Some?
         && OneControl(relocs, Short(ins.offset + 1), LocalTarget(t.value, ins, table, scope).value)
       else NoControl(relocs)
  }

  /** What one instruction contributes. */
  lemma JumpReloc(ins: Coded, table: Table, chars: map<string, C.i32>)
    requires EmitOperand(ins, table, chars).Some? && Decode(ins.opcode) == Some(Op(ins.mnemonic, ins.mode))
    ensures Contributes(ins, table, chars, EmitOperand(ins, table, chars).value.relocs)
  {
    hide Decode, Sensible, OperandTerm, Numeric, C.Normalize, FirstAfter, LastBefore, EmitBranch, EmitValue,
         EmitInline, EmitSymbol, NoControl,
         OneControl;
    assert NoControl([]) by { Nothing(); }
    if Length(ins.mode) > 1 {
      var scope := C.Scope(table.constants, chars);
      var t, width := OperandTerm(ins, scope).value, Length(ins.mode) - 1;
      if ins.mode == Relative {
        BranchReloc(t, ins, table, scope);
      } else if Numeric(t, scope).Some? {
        ValueReloc(Numeric(t, scope).value, width, ins);
      } else {
        match t.atom
        case Local(name) =>
          var key := C.Normalize(name);
          if key in table.labels {
            InlineReloc(table.labels[key], t.addend, width, ins, t.selector);
          } else {
            SymbolReloc(t, name, width, ins);
          }
        case External(name) => SymbolReloc(t, name, width, ins);
        case Number(_) =>
        case _ => InlineReloc(LocalTarget(t, ins, table, scope).value, 0, width, ins, t.selector);
      }
    }
  }

  lemma Nothing()
    ensures NoControl([])
  {
  }

  // ----- all of them -----

  lemma TargetsSnoc(before: seq<Reloc>, here: seq<Reloc>)
    requires |here| <= 1
    ensures Accept.ControlTargets(before + here) ==
      if here != [] && IsControl(here[0]) then Accept.ControlTargets(before)[here[0].offset := here[0].target.offset]
      else Accept.ControlTargets(before)
  {
    if here == [] { assert before + here == before; } else { assert (before + here)[..|before|] == before; }
  }

  /** The jumps among the first `n` instructions are known, and nothing else is taken for one. */
  ghost predicate Known(table: Table, n: nat, chars: map<string, C.i32>, targets: map<nat, nat>)
    requires n <= |table.code|
  {
    && (forall i :: 0 <= i < n ==> KnownAt(table, i, chars, targets))
    && forall at :: at in targets ==> FromJump(table, n, chars, at)
  }

  ghost predicate KnownAt(table: Table, i: nat, chars: map<string, C.i32>, targets: map<nat, nat>)
    requires i < |table.code|
  {
    var ins, scope := table.code[i], C.Scope(table.constants, chars);
    LocalJump(ins, table, chars) ==>
      && ins.offset + 1 in targets
      && LocalTarget(OperandTerm(ins, scope).value, ins, table, scope) == Some(targets[ins.offset + 1])
  }

  ghost predicate FromJump(table: Table, n: nat, chars: map<string, C.i32>, at: nat)
    requires n <= |table.code|
  {
    exists i :: 0 <= i < n && LocalJump(table.code[i], table, chars) && at == table.code[i].offset + 1
  }

  lemma {:induction false} OffsetsApart(code: seq<Coded>, size: nat, i: nat, j: nat)
    requires Laid(code, size) && i < j < |code|
    ensures code[i].offset < code[j].offset
    decreases j - i
  {
    hide Laid, Decode, Sensible;
    NextOffset(code, size, i);
    if i + 1 < j { OffsetsApart(code, size, i + 1, j); }
  }

  lemma {:induction false} OffsetBelow(code: seq<Coded>, size: nat, i: nat)
    requires Laid(code, size) && i < |code|
    ensures code[i].offset < size
    decreases |code| - i
  {
    hide Laid, Decode, Sensible;
    NextOffset(code, size, i);
    if i + 1 < |code| { OffsetBelow(code, size, i + 1); }
  }

  lemma OneMoreKnown(table: Table, n: nat, chars: map<string, C.i32>, targets: map<nat, nat>, relocs: seq<Reloc>,
      more: map<nat, nat>)
    requires n < |table.code| && Laid(table.code, table.size) && Known(table, n, chars, targets)
    requires Contributes(table.code[n], table, chars, relocs) && table.code[n].offset + 1 < 0x1_0000
    requires more == if relocs != [] && IsControl(relocs[0]) then targets[relocs[0].offset := relocs[0].target.offset] else targets
    ensures Known(table, n + 1, chars, more)
  {
    hide Laid, LocalJump, LocalTarget, OperandTerm;
    forall i | 0 <= i < n ensures table.code[i].offset < table.code[n].offset { OffsetsApart(table.code, table.size, i, n); }
    forall i | 0 <= i <= n
      ensures KnownAt(table, i, chars, more)
    {
      if i < n { assert KnownAt(table, i, chars, targets); }
    }
    forall at | at in more
      ensures FromJump(table, n + 1, chars, at)
    {
      if at in targets { assert FromJump(table, n, chars, at); }
    }
  }

  lemma {:induction false} KnownUpto(table: Table, n: nat, chars: map<string, C.i32>)
    requires Laid(table.code, table.size) && n <= |table.code| && EmittedUpto(table, n, chars).Some?
      && table.size < 0x1_0000
    ensures Known(table, n, chars, Accept.ControlTargets(EmittedUpto(table, n, chars).value.relocs))
  {
    hide Laid, EmitOperand, Contributes, Known, Template;
    if n == 0 {
      assert Known(table, 0, chars, map[]) by { NoneKnown(table, chars); }
    } else {
      KnownUpto(table, n - 1, chars);
      EmittedStep(table, n - 1, chars);
      hide EmittedUpto;
      var ins := table.code[n - 1];
      var before, here := EmittedUpto(table, n - 1, chars).value.relocs, EmitOperand(ins, table, chars).value.relocs;
      OpcodeOf(table.code, table.size, n - 1);
      JumpReloc(ins, table, chars);
      OffsetBelow(table.code, table.size, n - 1);
      assert |here| <= 1 by { AtMostOne(ins, table, chars, here); }
      TargetsSnoc(before, here);
      hide Accept.ControlTargets;
      OneMoreKnown(table, n - 1, chars, Accept.ControlTargets(before), here, Accept.ControlTargets(before + here));
    }
  }

  lemma AtMostOne(ins: Coded, table: Table, chars: map<string, C.i32>, relocs: seq<Reloc>)
    requires Contributes(ins, table, chars, relocs)
    ensures |relocs| <= 1
  {
  }

  lemma NoneKnown(table: Table, chars: map<string, C.i32>)
    ensures Known(table, 0, chars, map[])
  {
  }

  lemma OpcodeOf(code: seq<Coded>, size: nat, i: nat)
    requires Laid(code, size) && i < |code|
    ensures Decode(code[i].opcode) == Some(Op(code[i].mnemonic, code[i].mode))
  {
    hide Decode, Sensible;
    NextOffset(code, size, i);
  }

  /** The analysis of an accepted block knows exactly its direct jumps to places in the block. */
  lemma JumpsKnown(lines: seq<Line>, chars: map<string, C.i32>, p: Program, i: nat)
    requires Accepted(lines, chars, p) && p.table.size < 0x1_0000 && i < |p.table.code|
    ensures var ins, targets := p.table.code[i], Accept.ControlTargets(p.relocs);
      && (ins.offset + 1 in targets <==> LocalJump(ins, p.table, chars))
      && KnownAt(p.table, i, chars, targets)
    ensures forall at :: at in Accept.ControlTargets(p.relocs) ==> FromJump(p.table, |p.table.code|, chars, at)
  {
    hide Assembled, Entered, EmittedUpto, Template, Laid, Decode, LocalTarget, OperandTerm, LocalJump, Sensible,
         FromJump;
    AcceptedParts(lines, chars, p);
    KnownUpto(p.table, |p.table.code|, chars);
    var ins, targets := p.table.code[i], Accept.ControlTargets(p.relocs);
    hide Accept.ControlTargets;
    assert KnownAt(p.table, i, chars, targets);
    if !LocalJump(ins, p.table, chars) && ins.offset + 1 in targets {
      assert FromJump(p.table, |p.table.code|, chars, ins.offset + 1);
      SameOffset(p.table, i, chars);
    }
  }

  lemma SameOffset(table: Table, i: nat, chars: map<string, C.i32>)
    requires Laid(table.code, table.size) && i < |table.code|
      && FromJump(table, |table.code|, chars, table.code[i].offset + 1)
    ensures LocalJump(table.code[i], table, chars)
  {
    hide Laid, LocalJump;
    var j :| 0 <= j < |table.code| && LocalJump(table.code[j], table, chars)
      && table.code[i].offset == table.code[j].offset;
    if i < j { OffsetsApart(table.code, table.size, i, j); }
    if j < i { OffsetsApart(table.code, table.size, j, i); }
  }
}
