/** Flow graph of an encoded inline block: linear decoding, register effects, edges and exits. */
module AsmGraph {
  import opened Wrappers
  import opened Isa

  // ----- registers and effects -----

  datatype Register = RA | RX | RY | RFlags | RSp

  datatype Registers = Registers(a: bool, x: bool, y: bool, flags: bool, sp: bool)

  const NONE: Registers := Registers(false, false, false, false, false)
  const ALL: Registers := Registers(true, true, true, true, true)

  predicate Has(s: Registers, r: Register) {
    match r
    case RA => s.a
    case RX => s.x
    case RY => s.y
    case RFlags => s.flags
    case RSp => s.sp
  }

  function Merge(s: Registers, t: Registers): (u: Registers)
    ensures forall r :: Has(u, r) <==> Has(s, r) || Has(t, r)
  {
    Registers(s.a || t.a, s.x || t.x, s.y || t.y, s.flags || t.flags, s.sp || t.sp)
  }

  function Intersect(s: Registers, t: Registers): (u: Registers)
    ensures forall r :: Has(u, r) <==> Has(s, r) && Has(t, r)
  {
    Registers(s.a && t.a, s.x && t.x, s.y && t.y, s.flags && t.flags, s.sp && t.sp)
  }

  function Subtract(s: Registers, t: Registers): (u: Registers)
    ensures forall r :: Has(u, r) <==> Has(s, r) && !Has(t, r)
  {
    Registers(s.a && !t.a, s.x && !t.x, s.y && !t.y, s.flags && !t.flags, s.sp && !t.sp)
  }

  ghost predicate Within(s: Registers, t: Registers) {
    forall r :: Has(s, r) ==> Has(t, r)
  }

  function Reads(op: Op): Registers {
    var m, mode := op.mnemonic, op.mode;
    var onA := mode.Accumulator? && (m.ASL? || m.LSR? || m.ROL? || m.ROR?);
    Registers(
      m.ADC? || m.AND? || m.CMP? || m.EOR? || m.ORA? || m.SBC? || m.STA? || m.PHA? || m.TAX? || m.TAY? || m.JSR? || onA,
      m.CPX? || m.DEX? || m.INX? || m.STX? || m.TXA? || m.TXS? || m.JSR?
        || mode.ZeroPageX? || mode.AbsoluteX? || mode.IndexedIndirectX?,
      m.CPY? || m.DEY? || m.INY? || m.STY? || m.TYA? || m.JSR?
        || mode.ZeroPageY? || mode.AbsoluteY? || mode.IndirectIndexedY?,
      m.ADC? || m.SBC? || m.ROL? || m.ROR? || m.BCC? || m.BCS? || m.BEQ? || m.BMI? || m.BNE? || m.BPL? || m.BVC? || m.BVS? || m.PHP?,
      m.PHA? || m.PHP? || m.PLA? || m.PLP? || m.JSR? || m.RTS? || m.RTI? || m.BRK? || m.TSX?)
  }

  function Writes(op: Op): Registers {
    var m, mode := op.mnemonic, op.mode;
    var onA := mode.Accumulator? && (m.ASL? || m.LSR? || m.ROL? || m.ROR?);
    Registers(
      m.ADC? || m.AND? || m.EOR? || m.LDA? || m.ORA? || m.PLA? || m.SBC? || m.TXA? || m.TYA? || m.JSR? || onA,
      m.DEX? || m.INX? || m.LDX? || m.TAX? || m.TSX? || m.JSR?,
      m.DEY? || m.INY? || m.LDY? || m.TAY? || m.JSR?,
      m.ADC? || m.AND? || m.ASL? || m.BIT? || m.CLC? || m.CLD? || m.CLI? || m.CLV? || m.CMP? || m.CPX? || m.CPY?
          || m.DEC? || m.DEX? || m.DEY? || m.EOR? || m.INC? || m.INX? || m.INY? || m.LDA? || m.LDX? || m.LDY?
          || m.LSR? || m.ORA? || m.PLA? || m.PLP? || m.ROL? || m.ROR? || m.RTI? || m.SBC? || m.SEC? || m.SED?
          || m.SEI? || m.TAX? || m.TAY? || m.TSX? || m.TXA? || m.TYA? || m.JSR?,
      m.PHA? || m.PHP? || m.PLA? || m.PLP? || m.TXS?)
  }

  /** Change of stack depth; unknown after a return or a transfer into S. */
  function Delta(m: Mnemonic): Option<int> {
    if m == PHA || m == PHP then Some(-1)
    else if m == PLA || m == PLP then Some(1)
    else if Returns(m) || m == TXS then None
    else Some(0)
  }

  // ----- linear decoding -----

  datatype Ins = Ins(offset: nat, op: Op)

  function Size(ins: Ins): nat { Length(ins.op.mode) }

  /** Instructions from `from` to the end of the block, or None when a byte does not decode or an operand is cut off. */
  function Decoded(bytes: seq<byte>, from: nat): (r: Option<seq<Ins>>)
    requires from <= |bytes|
    decreases |bytes| - from
  {
    if from == |bytes| then Some([])
    else
      var op := Decode(bytes[from]);
      if op.None? || from + Length(op.value.mode) > |bytes| then None
      else
        var rest := Decoded(bytes, from + Length(op.value.mode));
        if rest.None? then None else Some([Ins(from, op.value)] + rest.value)
  }

  /** The instructions tile the bytes from `from` on: each begins where the one before ends. */
  ghost predicate Tiles(bytes: seq<byte>, from: nat, upto: nat, prog: seq<Ins>) {
    && (prog == [] ==> from == upto)
    && (prog != [] ==> prog[0].offset == from && prog[|prog| - 1].offset + Size(prog[|prog| - 1]) == upto)
    && (forall i, j :: 0 <= i < j < |prog| && j == i + 1 ==> prog[j].offset == prog[i].offset + Size(prog[i]))
    && (forall i :: 0 <= i < |prog| ==>
          prog[i].offset + Size(prog[i]) <= |bytes| && Decode(bytes[prog[i].offset]) == Some(prog[i].op))
  }

  lemma {:induction false} DecodedTiles(bytes: seq<byte>, from: nat)
    requires from <= |bytes| && Decoded(bytes, from).Some?
    ensures Tiles(bytes, from, |bytes|, Decoded(bytes, from).value)
    decreases |bytes| - from
  {
    hide Decode, Sensible;
    if from < |bytes| {
      DecodedTiles(bytes, from + Length(Decode(bytes[from]).value.mode));
    }
  }

  lemma {:induction false} TilesDecode(bytes: seq<byte>, from: nat, prog: seq<Ins>)
    requires from <= |bytes| && Tiles(bytes, from, |bytes|, prog)
    ensures Decoded(bytes, from) == Some(prog)
    decreases |prog|
  {
    hide Decode, Sensible;
    if prog != [] {
      var rest := prog[1..];
      assert forall i :: 0 <= i < |rest| ==> rest[i] == prog[i + 1];
      TilesDecode(bytes, from + Size(prog[0]), rest);
      assert prog == [prog[0]] + rest;
    }
  }

  lemma {:induction false} OffsetsIncrease(bytes: seq<byte>, prog: seq<Ins>, i: nat, j: nat)
    requires Tiles(bytes, 0, |bytes|, prog) && i < j < |prog|
    ensures prog[i].offset + Size(prog[i]) <= prog[j].offset
    decreases j - i
  {
    if i + 1 < j { OffsetsIncrease(bytes, prog, i, j - 1); }
  }

  /** The instruction that starts at an offset. */
  function IndexOf(prog: seq<Ins>, offset: int): (r: Option<nat>)
    ensures r.Some? ==> r.value < |prog| && prog[r.value].offset == offset
    ensures r.None? ==> forall i :: 0 <= i < |prog| ==> prog[i].offset != offset
  {
    if prog == [] then None
    else if prog[0].offset == offset then Some(0)
    else
      var r := IndexOf(prog[1..], offset);
      assert forall i :: 1 <= i < |prog| ==> prog[i] == prog[1..][i - 1];
      if r.Some? then Some(r.value + 1) else None
  }

  lemma IndexUnique(bytes: seq<byte>, prog: seq<Ins>, i: nat)
    requires Tiles(bytes, 0, |bytes|, prog) && i < |prog|
    ensures IndexOf(prog, prog[i].offset) == Some(i)
  {
    var r := IndexOf(prog, prog[i].offset);
    if r.value < i { OffsetsIncrease(bytes, prog, r.value, i); }
    if r.value > i { OffsetsIncrease(bytes, prog, i, r.value); }
  }

  // ----- edges and exits -----

  function SignedByte(b: byte): int { if b >= 128 then b - 256 else b }

  function Next(prog: seq<Ins>, i: nat): seq<nat> { if i + 1 < |prog| then [i + 1] else [] }

  function Found(r: Option<nat>): seq<nat> { if r.Some? then [r.value] else [] }

  /** Where a relative branch goes, as an offset from the start of the block. */
  function BranchTarget(bytes: seq<byte>, ins: Ins): int
    requires ins.offset + 1 < |bytes|
  {
    var b := bytes[ins.offset + 1];
    ins.offset + 2 + SignedByte(b)
  }

  /** The local target of an absolute jump, from the control relocations (operand offset to block offset). */
  function JumpTarget(prog: seq<Ins>, targets: map<nat, nat>, ins: Ins): Option<nat> {
    if ins.offset + 1 in targets then IndexOf(prog, targets[ins.offset + 1]) else None
  }

  predicate Returns(m: Mnemonic) { m == RTS || m == RTI || m == BRK }

  function Successors(bytes: seq<byte>, targets: map<nat, nat>, prog: seq<Ins>, i: nat): seq<nat>
    requires i < |prog| && prog[i].offset + Size(prog[i]) <= |bytes|
  {
    var ins := prog[i];
    if ins.op.mode == Relative then Next(prog, i) + Found(IndexOf(prog, BranchTarget(bytes, ins)))
    else if ins.op.mnemonic == JMP then Found(JumpTarget(prog, targets, ins))
    else if Returns(ins.op.mnemonic) then []
    else Next(prog, i)
  }

  function IsExit(targets: map<nat, nat>, prog: seq<Ins>, i: nat): bool
    requires i < |prog|
  {
    var ins := prog[i];
    if ins.op.mode == Relative then i + 1 >= |prog|
    else if ins.op.mnemonic == JMP then JumpTarget(prog, targets, ins).None?
    else Returns(ins.op.mnemonic) || i + 1 >= |prog|
  }

  datatype Graph = Graph(prog: seq<Ins>, succs: seq<seq<nat>>, exits: seq<bool>)

  function GraphOf(bytes: seq<byte>, targets: map<nat, nat>): (r: Option<Graph>) {
    if Decoded(bytes, 0).None? then None
    else
      var prog := Decoded(bytes, 0).value;
      assert Tiles(bytes, 0, |bytes|, prog) by { DecodedTiles(bytes, 0); }
      Some(Graph(prog,
                 seq(|prog|, i requires 0 <= i < |prog| => Successors(bytes, targets, prog, i)),
                 seq(|prog|, i requires 0 <= i < |prog| => IsExit(targets, prog, i))))
  }

  ghost predicate WellFormed(g: Graph) {
    && |g.succs| == |g.prog| == |g.exits|
    && forall p, k :: 0 <= p < |g.succs| && 0 <= k < |g.succs[p]| ==> g.succs[p][k] < |g.prog|
  }

  lemma GraphWellFormed(bytes: seq<byte>, targets: map<nat, nat>)
    requires GraphOf(bytes, targets).Some?
    ensures WellFormed(GraphOf(bytes, targets).value)
    ensures Tiles(bytes, 0, |bytes|, GraphOf(bytes, targets).value.prog)
  {
    hide Decoded, Decode, Sensible;
    DecodedTiles(bytes, 0);
  }

  predicate Edge(g: Graph, p: nat, i: nat)
    requires p < |g.succs|
  {
    i in g.succs[p]
  }

  // ----- the two loops that build the graph -----

  method DecodeBlock(bytes: seq<byte>) returns (r: Option<seq<Ins>>)
    ensures r == Decoded(bytes, 0)
  {
    hide Decode, Sensible;
    var prog: seq<Ins> := [];
    var offset := 0;
    while offset < |bytes|
      invariant offset <= |bytes|
      invariant Decoded(bytes, 0) == Prepend(prog, Decoded(bytes, offset))
    {
      var op := Decode(bytes[offset]);
      if op.None? || offset + Length(op.value.mode) > |bytes| {
        return None;
      }
      var ins := Ins(offset, op.value);
      assert forall rest :: prog + ([ins] + rest) == (prog + [ins]) + rest;
      prog := prog + [ins];
      offset := offset + Length(op.value.mode);
    }
    return Some(prog);
  }

  function Prepend(prog: seq<Ins>, rest: Option<seq<Ins>>): (r: Option<seq<Ins>>)
    ensures prog == [] ==> r == rest
    ensures rest == Some([]) ==> r == Some(prog)
  {
    if rest.None? then None
    else
      assert [] + rest.value == rest.value && prog + [] == prog;
      Some(prog + rest.value)
  }

  method BuildGraph(bytes: seq<byte>, targets: map<nat, nat>) returns (r: Option<Graph>)
    ensures r == GraphOf(bytes, targets)
  {
    hide Decoded, Decode, Sensible, Successors, IsExit;
    var decoded := DecodeBlock(bytes);
    if decoded.None? {
      return None;
    }
    var prog := decoded.value;
    DecodedTiles(bytes, 0);
    var succs: seq<seq<nat>>, exits: seq<bool> := [], [];
    for i := 0 to |prog|
      invariant |succs| == |exits| == i
      invariant forall k :: 0 <= k < i ==> succs[k] == Successors(bytes, targets, prog, k)
      invariant forall k :: 0 <= k < i ==> exits[k] == IsExit(targets, prog, k)
    {
      succs := succs + [Successors(bytes, targets, prog, i)];
      exits := exits + [IsExit(targets, prog, i)];
    }
    assert succs == GraphOf(bytes, targets).value.succs;
    assert exits == GraphOf(bytes, targets).value.exits;
    return Some(Graph(prog, succs, exits));
  }
}
