/** Blocks the assembler accepts without `OPAQUE`: what the checks after assembly guarantee about running them. */
module AsmAccept {
  import opened Wrappers
  import opened Isa
  import opened Assembler
  import opened AsmLayout
  import C = ConstExpr
  import Flow = AsmGraph
  import Sweeps = AsmSweep
  import Depth = AsmDepth
  import Stack = AsmStack
  import Balance = AsmBalance
  import Report = AsmAnalyze

  /** The local jumps, from where their operand is to where they go. */
  function ControlTargets(relocs: seq<Reloc>): map<nat, nat> {
    if relocs == [] then map[]
    else
      var last := relocs[|relocs| - 1];
      var before := ControlTargets(relocs[..|relocs| - 1]);
      if last.target.InlineOffset? && last.use == Control then before[last.offset := last.target.offset] else before
  }

  predicate Unmodelled(m: Mnemonic) { m in {TXS, BRK, RTI, SED} }

  datatype Verdict = Rejected | Accepts(program: Program) | Unsettled

  ghost predicate Passes(p: Program, f: Sweeps.Flow, g: Flow.Graph)
    requires Flow.WellFormed(g) && Sweeps.FlowFor(g, f)
  {
    (forall i :: 0 <= i < |p.table.code| ==> !Unmodelled(p.table.code[i].mnemonic)) && Stack.Balanced(g, f)
  }

  ghost predicate Refusable(p: Program, sweeps: nat) {
    var g := Flow.GraphOf(p.bytes, ControlTargets(p.relocs));
    || (exists i :: 0 <= i < |p.table.code| && Unmodelled(p.table.code[i].mnemonic))
    || g.None?
    || (Flow.WellFormed(g.value) && Sweeps.After(g.value, sweeps + 1) == Sweeps.After(g.value, sweeps)
          && !Stack.Balanced(g.value, Sweeps.After(g.value, sweeps)))
  }

  /** Assemble, refuse what is not modelled, and refuse what the stack analysis does not report balanced. */
  method AssembleAnalyzed(lines: seq<Line>, chars: map<string, C.i32>, limit: nat)
    returns (v: Verdict, ghost sweeps: nat)
    ensures v.Accepts? ==>
      && Accepted(lines, chars, v.program)
      && var g := Flow.GraphOf(v.program.bytes, ControlTargets(v.program.relocs));
      && g.Some? && Flow.WellFormed(g.value)
      && Sweeps.After(g.value, sweeps + 1) == Sweeps.After(g.value, sweeps)
      && Passes(v.program, Sweeps.After(g.value, sweeps), g.value)
    ensures v.Rejected? && Assembled(lines, chars).Some? ==> Refusable(Assembled(lines, chars).value, sweeps)
    ensures Assembled(lines, chars).None? ==> v == Rejected
  {
    hide Assembled, Flow.GraphOf, Sweeps.After, Stack.Balanced;
    sweeps := 0;
    var assembled := AssembleBlock(lines, chars);
    if assembled.None? { return Rejected, 0; }
    var p := assembled.value;
    for i := 0 to |p.table.code|
      invariant forall k :: 0 <= k < i ==> !Unmodelled(p.table.code[k].mnemonic)
    {
      if p.table.code[i].mnemonic in {TXS, BRK, RTI, SED} { return Rejected, 0; }
    }
    var summary;
    summary, sweeps := Report.Analyze(p.bytes, ControlTargets(p.relocs), limit);
    if summary.None? { return Unsettled, sweeps; }
    if !summary.value.balanced { return Rejected, sweeps; }
    v := Accepts(p);
  }

  /** Branches and local jumps go to instruction starts or out of the block. */
  ghost predicate Regular(p: Program, g: Flow.Graph)
    requires Flow.WellFormed(g)
  {
    forall i :: 0 <= i < |g.prog| && Depth.Reachable(g, i) ==> Lands(p, g.prog, i)
  }

  ghost predicate Lands(p: Program, prog: seq<Flow.Ins>, i: nat)
    requires i < |prog|
  {
    var ins, targets := prog[i], ControlTargets(p.relocs);
    && (ins.op.mode == Relative ==>
          ins.offset + 1 < |p.bytes|
            && (Flow.IndexOf(prog, Flow.BranchTarget(p.bytes, ins)).Some? || Stack.Lost(p.bytes, prog, i)))
    && (ins.op.mnemonic == JMP && ins.offset + 1 in targets ==>
          targets[ins.offset + 1] >= |p.bytes| || Flow.IndexOf(prog, targets[ins.offset + 1]).Some?)
  }

  lemma RegularBytes(p: Program, g: Flow.Graph)
    requires Flow.WellFormed(g) && Regular(p, g) && g.prog == Listing(p.table.code)
    requires forall i :: 0 <= i < |p.table.code| ==> !Unmodelled(p.table.code[i].mnemonic)
    ensures Stack.Ordinary(p.bytes, ControlTargets(p.relocs), g)
  {
    hide Depth.Reachable, ControlTargets, Decode, Stack.Lost;
    forall i | 0 <= i < |g.prog| && Depth.Reachable(g, i)
      ensures Stack.OrdinaryAt(p.bytes, ControlTargets(p.relocs), g.prog, i)
    {
      assert Lands(p, g.prog, i);
      assert !Unmodelled(p.table.code[i].mnemonic);
    }
  }

  /**
   * The runs of an accepted block with a depth labelling all leave the stack as deep as they found it if and only if its
   * branches out of the block are at depth zero and, if it can be left at all, so are its edges back to the entry.
   */
  lemma AcceptedRunsBalanced(lines: seq<Line>, chars: map<string, C.i32>, p: Program, g: Flow.Graph,
      labels: seq<int>, n: nat)
    requires Accepted(lines, chars, p) && NoneWide(p.table, |p.table.code|, chars) && p.table.code != []
    requires Flow.GraphOf(p.bytes, ControlTargets(p.relocs)) == Some(g) && Flow.WellFormed(g) && Regular(p, g)
    requires |labels| == |g.prog| && Depth.Labels(g, labels)
    requires Sweeps.After(g, n + 1) == Sweeps.After(g, n) && Passes(p, Sweeps.After(g, n), g)
    ensures g.prog == Listing(p.table.code)
    ensures Stack.RunsBalanced(p.bytes, ControlTargets(p.relocs)) <==>
      Stack.LostAtZero(p.bytes, g, labels) && (Stack.Leaves(p.bytes, g) ==> Stack.Closed(g, labels))
  {
    hide Assembled, NoneWide, Flow.Decoded, Sweeps.After, Stack.Balanced, Stack.RunsBalanced, Flow.Successors,
         Flow.IsExit, Flow.Edge,
         ControlTargets, Depth.Reachable, Depth.Labels, Stack.NoOrphans, Stack.LostAtZero, Stack.Leaves, Stack.Closed, Stack.ZeroAtExits,
         Stack.KeepsS, Decode;
    LayoutExact(lines, chars, p);
    assert g.prog == Listing(p.table.code);
    RegularBytes(p, g);
    hide Stack.Ordinary, Regular, Lands;
    Stack.OrdinaryKeepsS(p.bytes, ControlTargets(p.relocs), g);
    Stack.BalancedOnLabels(g, labels, n);
    Stack.RunsOnLabels(p.bytes, ControlTargets(p.relocs), g, labels);
  }

  /**
   * Conversely a block all of whose runs are balanced, and from everywhere in which some way leads out, is not refused
   * for its stack, unless it has exits that only unreachable code leads to.
   */
  lemma BalancedIsAccepted(lines: seq<Line>, chars: map<string, C.i32>, p: Program, g: Flow.Graph, n: nat)
    requires Accepted(lines, chars, p) && NoneWide(p.table, |p.table.code|, chars) && p.table.code != []
    requires Flow.GraphOf(p.bytes, ControlTargets(p.relocs)) == Some(g) && Flow.WellFormed(g) && Regular(p, g)
    requires forall i :: 0 <= i < |p.table.code| ==> !Unmodelled(p.table.code[i].mnemonic)
    requires Stack.RunsBalanced(p.bytes, ControlTargets(p.relocs)) && Balance.CanLeave(p.bytes, g)
    requires n >= 11 * |g.prog| + 1
    ensures Sweeps.After(g, n + 1) == Sweeps.After(g, n) && (Passes(p, Sweeps.After(g, n), g) <==> Stack.NoOrphans(g))
  {
    hide Assembled, NoneWide, Flow.Decoded, Sweeps.After, Stack.Balanced, Stack.RunsBalanced, Flow.Successors,
         Flow.IsExit, Flow.Edge,
         ControlTargets, Balance.CanLeave, Stack.NoOrphans, Depth.Reachable, Decode;
    LayoutExact(lines, chars, p);
    assert g.prog == Listing(p.table.code);
    RegularBytes(p, g);
    hide Stack.Ordinary, Regular, Lands;
    Balance.BalancedIsReported(p.bytes, ControlTargets(p.relocs), g, n);
  }
}
