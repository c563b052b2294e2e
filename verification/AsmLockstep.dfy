/** The register report on a real machine: runs that differ only in an unreported register stay in lockstep. */
module AsmLockstep {
  import opened Wrappers
  import opened Isa
  import opened Cpu
  import opened AsmBlind
  import Flow = AsmGraph
  import Sweeps = AsmSweep
  import Fix = AsmFixpoint
  import Report = AsmAnalyze
  import Depth = AsmDepth
  import Stack = AsmStack

  // ----- running the encoded block -----

  /** At an instruction, out of the block, or astray in the middle of an operand, where the run is not followed. */
  datatype Place = Inside(index: nat) | Outside | Astray(pc: nat)

  function OperandAt(bytes: seq<byte>, ins: Flow.Ins): word
    requires ins.offset + Flow.Size(ins) <= |bytes|
  {
    if Flow.Size(ins) == 1 then 0
    else if Flow.Size(ins) == 2 then bytes[ins.offset + 1]
    else
      var low: int, high: int := bytes[ins.offset + 1], bytes[ins.offset + 2];
      low + 256 * high
  }

  function Onward(prog: seq<Flow.Ins>, i: nat): Place { if i + 1 < |prog| then Inside(i + 1) else Outside }

  function LandAt(bytes: seq<byte>, prog: seq<Flow.Ins>, target: int): Place {
    var r := Flow.IndexOf(prog, target);
    if r.Some? then Inside(r.value) else if 0 <= target < |bytes| then Astray(target) else Outside
  }

  function NextPlace(bytes: seq<byte>, targets: map<nat, nat>, prog: seq<Flow.Ins>, i: nat, s: State): Place
    requires i < |prog| && prog[i].offset + Flow.Size(prog[i]) <= |bytes|
  {
    var ins := prog[i];
    if ins.op.mode == Relative then
      if Taken(ins.op.mnemonic, s) then LandAt(bytes, prog, Flow.BranchTarget(bytes, ins)) else Onward(prog, i)
    else if ins.op.mnemonic == JMP then
      if ins.offset + 1 in targets then LandAt(bytes, prog, targets[ins.offset + 1]) else Outside
    else if Flow.Returns(ins.op.mnemonic) then Outside
    else Onward(prog, i)
  }

  datatype Config = Config(place: Place, cpu: State)

  ghost predicate Fits(bytes: seq<byte>, prog: seq<Flow.Ins>) {
    forall i :: 0 <= i < |prog| ==> prog[i].offset + Flow.Size(prog[i]) <= |bytes|
  }

  function Step(bytes: seq<byte>, targets: map<nat, nat>, prog: seq<Flow.Ins>, c: Config): Config
    requires Fits(bytes, prog)
  {
    if !c.place.Inside? || c.place.index >= |prog| then c
    else
      var ins := prog[c.place.index];
      Config(NextPlace(bytes, targets, prog, c.place.index, c.cpu), Exec(ins.op, OperandAt(bytes, ins), c.cpu))
  }

  function Run(bytes: seq<byte>, targets: map<nat, nat>, prog: seq<Flow.Ins>, c: Config, n: nat): Config
    requires Fits(bytes, prog)
  {
    if n == 0 then c else Step(bytes, targets, prog, Run(bytes, targets, prog, c, n - 1))
  }

  // ----- lockstep -----

  /** Two machines at the same place that differ at most in `r`, and not even there once `r` is surely defined. */
  ghost predicate Lockstep(g: Flow.Graph, d: Sweeps.Defs, r: Flow.Register, c: Config, e: Config)
    requires Sweeps.DefsFor(g, d) && Tracked(r)
  {
    && c.place == e.place
    && e.cpu == With(c.cpu, r, Value(e.cpu, r))
    && (c.place.Inside? ==>
          && c.place.index < |g.prog| && d.into[c.place.index].Some?
          && (Flow.Has(d.into[c.place.index].value, r) ==> c.cpu == e.cpu))
  }

  ghost predicate IsBlock(bytes: seq<byte>, targets: map<nat, nat>, g: Flow.Graph) {
    Flow.GraphOf(bytes, targets) == Some(g) && Flow.WellFormed(g) && Fits(bytes, g.prog)
  }

  lemma BlockFacts(bytes: seq<byte>, targets: map<nat, nat>, g: Flow.Graph, i: nat)
    requires Flow.GraphOf(bytes, targets) == Some(g) && i < |g.prog|
    ensures IsBlock(bytes, targets, g) && Sensible(g.prog[i].op)
  {
    hide Flow.Decoded, Decode, Sensible, Flow.Successors, Flow.IsExit;
    Flow.GraphWellFormed(bytes, targets);
  }

  /** A step inside the block follows an edge. */
  lemma StepFollowsEdge(bytes: seq<byte>, targets: map<nat, nat>, g: Flow.Graph, i: nat, s: State)
    requires IsBlock(bytes, targets, g) && i < |g.prog|
    ensures var p := NextPlace(bytes, targets, g.prog, i, s); p.Inside? ==>
      p.index < |g.prog| && Flow.Edge(g, i, p.index)
  {
    hide Flow.Decoded, Decode, Taken, Sensible;
    assert g.succs[i] == Flow.Successors(bytes, targets, g.prog, i);
    var p := NextPlace(bytes, targets, g.prog, i, s);
    if p.Inside? {
      var n := |g.succs[i]|;
      assert n > 0 && (g.succs[i][0] == p.index || g.succs[i][n - 1] == p.index);
    }
  }

  /** Along an edge, what is surely defined afterwards was defined before or is written here. */
  lemma DefinedAlongEdge(g: Flow.Graph, n: nat, i: nat, j: nat, r: Flow.Register)
    requires Flow.WellFormed(g) && Sweeps.After(g, n + 1).defs == Sweeps.After(g, n).defs
    requires i < |g.prog| && j < |g.prog| && Flow.Edge(g, i, j) && Sweeps.After(g, n).defs.into[i].Some?
    ensures var d := Sweeps.After(g, n).defs;
      d.into[j].Some?
        && (Flow.Has(d.into[j].value, r) ==> Flow.Has(d.into[i].value, r) || Flow.Has(Flow.Writes(g.prog[i].op), r))
  {
    hide Sweeps.After, Sweeps.Meet, Sweeps.Preds, Flow.Writes;
    var d := Sweeps.After(g, n).defs;
    Fix.SettledSolves(g, n);
    assert Fix.CellSolved(g, d, i) && Fix.CellSolved(g, d, j);
    Sweeps.PredsExact(g, j, i);
    var ps := Sweeps.Preds(g, j);
    Sweeps.MeetIsLowerBound(ps, d.out, Sweeps.Start(j));
    assert Flow.Within(d.into[j].value, d.out[i]);
  }

  /** A register read without being surely defined is in the report. */
  lemma UnreportedIsDefined(g: Flow.Graph, f: Sweeps.Flow, summary: Report.Summary, i: nat, r: Flow.Register)
    requires Flow.WellFormed(g) && Sweeps.FlowFor(g, f) && Report.Summarizes(g, f, summary) && i < |g.prog|
    requires f.defs.into[i].Some? && Flow.Has(Flow.Reads(g.prog[i].op), r) && !Flow.Has(summary.incoming, r)
    ensures Flow.Has(f.defs.into[i].value, r)
  {
    hide Flow.Reads, Flow.WellFormed;
    assert Report.ReadsSummed(g, f, summary.incoming, |g.prog|);
    assert Report.CountedRead(g, f, r, i) <==> !Flow.Has(f.defs.into[i].value, r);
  }

  /** The table is right about the register at every instruction that it may still be undefined at. */
  ghost predicate Trusted(g: Flow.Graph, d: Sweeps.Defs, r: Flow.Register)
    requires Sweeps.DefsFor(g, d)
  {
    forall i :: 0 <= i < |g.prog| && d.into[i].Some? ==> Honest(g.prog[i].op, r) || Flow.Has(d.into[i].value, r)
  }

  lemma ExecKeeps(op: Op, w: word, s: State, t: State, r: Flow.Register, defined: bool)
    requires Tracked(r) && Sensible(op) && (Honest(op, r) || defined) && t == With(s, r, Value(t, r))
    requires defined || Flow.Has(Flow.Reads(op), r) ==> s == t
    ensures Exec(op, w, t) == With(Exec(op, w, s), r, Value(Exec(op, w, t), r))
    ensures defined || Flow.Has(Flow.Writes(op), r) ==> Exec(op, w, s) == Exec(op, w, t)
  {
    hide Exec, Flow.Reads, Flow.Writes, Sensible, With, Value;
    var u := Exec(op, w, s);
    WithValue(u, r, 0);
    if s != t {
      InstructionBlind(op, w, s, r, Value(t, r));
      WithValue(u, r, Value(t, r));
    }
  }

  lemma StepKeeps(bytes: seq<byte>, targets: map<nat, nat>, g: Flow.Graph, n: nat, summary: Report.Summary,
      r: Flow.Register, c: Config, e: Config)
    requires Flow.GraphOf(bytes, targets) == Some(g) && IsBlock(bytes, targets, g)
    requires Sweeps.After(g, n + 1).defs == Sweeps.After(g, n).defs && Report.Summarizes(g, Sweeps.After(g, n), summary)
    requires Tracked(r) && !Flow.Has(summary.incoming, r)
    requires Trusted(g, Sweeps.After(g, n).defs, r)
    requires Lockstep(g, Sweeps.After(g, n).defs, r, c, e)
    ensures Lockstep(g, Sweeps.After(g, n).defs, r, Step(bytes, targets, g.prog, c), Step(bytes, targets, g.prog, e))
  {
    if c.place.Inside? {
      hide Sweeps.After, Report.Summarizes, Exec, Flow.GraphOf, With, Value, Taken, Flow.Reads, Flow.Writes,
           Sensible, NextPlace, OperandAt;
      var d, i := Sweeps.After(g, n).defs, c.place.index;
      var op, w := g.prog[i].op, OperandAt(bytes, g.prog[i]);
      BlockFacts(bytes, targets, g, i);
      if Flow.Has(Flow.Reads(op), r) { UnreportedIsDefined(g, Sweeps.After(g, n), summary, i, r); }
      ExecKeeps(op, w, c.cpu, e.cpu, r, Flow.Has(d.into[i].value, r));
      SamePlace(bytes, targets, g.prog, i, c.cpu, r, Value(e.cpu, r));
      StepFollowsEdge(bytes, targets, g, i, c.cpu);
      var p := NextPlace(bytes, targets, g.prog, i, c.cpu);
      if p.Inside? {
        DefinedAlongEdge(g, n, i, p.index, r);
      }
    }
  }

  lemma SamePlace(bytes: seq<byte>, targets: map<nat, nat>, prog: seq<Flow.Ins>, i: nat, s: State, r: Flow.Register,
      v: byte)
    requires Tracked(r) && i < |prog| && prog[i].offset + Flow.Size(prog[i]) <= |bytes|
    ensures NextPlace(bytes, targets, prog, i, With(s, r, v)) == NextPlace(bytes, targets, prog, i, s)
  {
    hide With, Taken, LandAt;
    TakenBlind(prog[i].op.mnemonic, s, r, v);
  }

  lemma {:induction false} RunsInLockstep(bytes: seq<byte>, targets: map<nat, nat>, g: Flow.Graph, n: nat,
      summary: Report.Summary, r: Flow.Register, c: Config, e: Config, k: nat)
    requires Flow.GraphOf(bytes, targets) == Some(g) && IsBlock(bytes, targets, g)
    requires Sweeps.After(g, n + 1).defs == Sweeps.After(g, n).defs && Report.Summarizes(g, Sweeps.After(g, n), summary)
    requires Tracked(r) && !Flow.Has(summary.incoming, r)
    requires Trusted(g, Sweeps.After(g, n).defs, r)
    requires Lockstep(g, Sweeps.After(g, n).defs, r, c, e)
    ensures Lockstep(g, Sweeps.After(g, n).defs, r, Run(bytes, targets, g.prog, c, k), Run(bytes, targets, g.prog, e, k))
  {
    hide Sweeps.After, Report.Summarizes, Step, Lockstep, Flow.GraphOf;
    if k > 0 {
      RunsInLockstep(bytes, targets, g, n, summary, r, c, e, k - 1);
      StepKeeps(bytes, targets, g, n, summary, r, Run(bytes, targets, g.prog, c, k - 1),
          Run(bytes, targets, g.prog, e, k - 1));
    }
  }

  /**
   * A, X or Y outside the report cannot influence the block: from machines that differ only in it, runs of any length
   * take the same instructions, come to the same place, and agree on everything else, memory included.
   */
  lemma UnreportedIsIrrelevant(bytes: seq<byte>, targets: map<nat, nat>, g: Flow.Graph, n: nat,
      summary: Report.Summary, r: Flow.Register, s: State, v: byte, k: nat)
    requires Flow.GraphOf(bytes, targets) == Some(g) && g.prog != [] && Flow.WellFormed(g) && Fits(bytes, g.prog)
    requires Sweeps.After(g, n + 1).defs == Sweeps.After(g, n).defs && Report.Summarizes(g, Sweeps.After(g, n), summary)
    requires Tracked(r) && !Flow.Has(summary.incoming, r)
    requires Trusted(g, Sweeps.After(g, n).defs, r)
    ensures var c := Run(bytes, targets, g.prog, Config(Inside(0), s), k);
      var e := Run(bytes, targets, g.prog, Config(Inside(0), With(s, r, v)), k);
      c.place == e.place && e.cpu == With(c.cpu, r, Value(e.cpu, r))
  {
    hide Sweeps.After, Report.Summarizes, Step, Flow.GraphOf, With, Value, Sweeps.Meet, Sweeps.Preds;
    BlockFacts(bytes, targets, g, 0);
    Fix.SettledSolves(g, n);
    var d := Sweeps.After(g, n).defs;
    assert Fix.CellSolved(g, d, 0);
    Sweeps.MeetIsLowerBound(Sweeps.Preds(g, 0), d.out, Sweeps.Start(0));
    assert Flow.Within(d.into[0].value, Flow.NONE);
    WithValue(s, r, v);
    RunsInLockstep(bytes, targets, g, n, summary, r, Config(Inside(0), s), Config(Inside(0), With(s, r, v)), k);
  }

  /** Where branches and jumps go to instruction starts or out of the block, no run goes astray. */
  lemma {:induction false} NeverAstray(bytes: seq<byte>, targets: map<nat, nat>, g: Flow.Graph, s: State, k: nat)
    requires Flow.GraphOf(bytes, targets) == Some(g) && g.prog != [] && Flow.WellFormed(g) && Fits(bytes, g.prog)
    requires Stack.Ordinary(bytes, targets, g)
    ensures var place := Run(bytes, targets, g.prog, Config(Inside(0), s), k).place;
      !place.Astray? && (place.Inside? ==> place.index < |g.prog| && Depth.Reachable(g, place.index))
    decreases k
  {
    hide Flow.GraphOf, Depth.Reachable, Exec, OperandAt, NextPlace, Flow.WellFormed, Stack.OrdinaryAt;
    if k == 0 {
      Depth.ReachEntry(g);
    } else {
      NeverAstray(bytes, targets, g, s, k - 1);
      var c := Run(bytes, targets, g.prog, Config(Inside(0), s), k - 1);
      if c.place.Inside? {
        var i := c.place.index;
        BlockFacts(bytes, targets, g, i);
        StepFollowsEdge(bytes, targets, g, i, c.cpu);
        NextOrdinary(bytes, targets, g.prog, i, c.cpu);
        var p := NextPlace(bytes, targets, g.prog, i, c.cpu);
        if p.Inside? { Depth.ReachStep(g, i, p.index); }
      }
    }
  }

  lemma NextOrdinary(bytes: seq<byte>, targets: map<nat, nat>, prog: seq<Flow.Ins>, i: nat, s: State)
    requires i < |prog| && prog[i].offset + Flow.Size(prog[i]) <= |bytes| && Stack.OrdinaryAt(bytes, targets, prog, i)
    ensures !NextPlace(bytes, targets, prog, i, s).Astray?
  {
    hide Taken, Flow.IndexOf;
  }
}
