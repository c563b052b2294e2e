/** What the depth analysis says about runs of the encoded block. */
module AsmStack {
  import opened Wrappers
  import opened Isa
  import opened AsmGraph
  import opened AsmSweep
  import opened AsmFixpoint
  import opened AsmDepth

  // ----- the machine: program counter and net stack depth over the raw bytes -----

  datatype Outcome = Goto(pc: nat, depth: int) | Leave(depth: int)

  function To(bytes: seq<byte>, pc: int, depth: int): Outcome {
    if 0 <= pc < |bytes| then Goto(pc, depth) else Leave(depth)
  }

  /**
   * What executing the instruction at `pc` may lead to. Either way of a branch is possible; a called routine keeps
   * the depth.
   */
  ghost predicate May(bytes: seq<byte>, targets: map<nat, nat>, pc: nat, depth: int, o: Outcome) {
    pc < |bytes| &&
    match Decode(bytes[pc])
    case None => false
    case Some(op) =>
      pc + Length(op.mode) <= |bytes| &&
      if op.mode == Relative then
        o == To(bytes, pc + 2, depth) || o == To(bytes, BranchTarget(bytes, Ins(pc, op)), depth)
      else if op.mnemonic == JMP then
        o == if pc + 1 in targets then To(bytes, targets[pc + 1], depth) else Leave(depth)
      else if op.mnemonic == RTS || op.mnemonic == RTI || op.mnemonic == BRK then o == Leave(depth)
      else if op.mnemonic == PHA || op.mnemonic == PHP then o == To(bytes, pc + 1, depth - 1)
      else if op.mnemonic == PLA || op.mnemonic == PLP then o == To(bytes, pc + 1, depth + 1)
      else o == To(bytes, pc + Length(op.mode), depth)
  }

  /** A run from the entry: program counters and depths in turn. */
  ghost predicate IsRun(bytes: seq<byte>, targets: map<nat, nat>, run: seq<(nat, int)>) {
    && |run| > 0 && run[0] == (0, 0)
    && forall k, l :: 0 <= k < l < |run| && l == k + 1 ==>
         May(bytes, targets, run[k].0, run[k].1, Goto(run[l].0, run[l].1))
  }

  /** Every run that leaves the block does so at the depth it came with. */
  ghost predicate RunsBalanced(bytes: seq<byte>, targets: map<nat, nat>) {
    forall run: seq<(nat, int)>, d: int :: LeavesAt(bytes, targets, run, d) ==> d == 0
  }

  /** The run may end here, out of the block, at net depth `d`. */
  ghost predicate LeavesAt(bytes: seq<byte>, targets: map<nat, nat>, run: seq<(nat, int)>, d: int) {
    IsRun(bytes, targets, run) && May(bytes, targets, run[|run| - 1].0, run[|run| - 1].1, Leave(d))
  }

  // ----- blocks whose control the graph follows -----

  /** A branch out of the block: neither an edge of the graph nor an exit. */
  ghost predicate Lost(bytes: seq<byte>, prog: seq<Ins>, i: nat)
    requires i < |prog|
  {
    var ins := prog[i];
    ins.op.mode == Relative && ins.offset + 1 < |bytes| && !(0 <= BranchTarget(bytes, ins) < |bytes|)
  }

  /** S is not loaded, and branches and local jumps go to instruction starts or out of the block, not into operands. */
  ghost predicate OrdinaryAt(bytes: seq<byte>, targets: map<nat, nat>, prog: seq<Ins>, i: nat)
    requires i < |prog|
  {
    var ins := prog[i];
    && ins.op.mnemonic != TXS
    && (ins.op.mode == Relative ==>
          ins.offset + 1 < |bytes| && (IndexOf(prog, BranchTarget(bytes, ins)).Some? || Lost(bytes, prog, i)))
    && (ins.op.mnemonic == JMP && ins.offset + 1 in targets ==>
          targets[ins.offset + 1] >= |bytes| || IndexOf(prog, targets[ins.offset + 1]).Some?)
  }

  /** So it is for all that can be reached. */
  ghost predicate Ordinary(bytes: seq<byte>, targets: map<nat, nat>, g: Graph)
    requires WellFormed(g)
  {
    forall i :: 0 <= i < |g.prog| && Reachable(g, i) ==> OrdinaryAt(bytes, targets, g.prog, i)
  }

  // ----- instruction by instruction -----

  ghost predicate IsGraph(bytes: seq<byte>, targets: map<nat, nat>, g: Graph) {
    GraphOf(bytes, targets) == Some(g) && Tiles(bytes, 0, |bytes|, g.prog)
  }

  /** The graph's entries for one instruction. */
  lemma AtInstruction(bytes: seq<byte>, targets: map<nat, nat>, g: Graph, i: nat)
    requires WellFormed(g) && IsGraph(bytes, targets, g) && i < |g.prog|
    ensures g.prog[i].offset + Size(g.prog[i]) <= |bytes| && Decode(bytes[g.prog[i].offset]) == Some(g.prog[i].op)
    ensures g.succs[i] == Successors(bytes, targets, g.prog, i) && g.exits[i] == IsExit(targets, g.prog, i)
  {
    hide Sensible, Decode, Decoded, Successors, IsExit;
  }

  lemma LabelStep(g: Graph, labels: seq<int>, p: nat, i: nat)
    requires WellFormed(g) && |labels| == |g.prog| && Labels(g, labels)
    requires p < |g.prog| && 0 < i < |g.prog| && Reachable(g, p) && Edge(g, p, i)
    ensures labels[i] == labels[p] + Step(g, p)
  {
    hide Reachable;
    assert Consistent(g, labels, p, i);
  }

  lemma LabelOfStart(g: Graph, labels: seq<int>)
    requires WellFormed(g) && |labels| == |g.prog| && Labels(g, labels) && g.prog != []
    ensures labels[0] == 0
  {
  }

  lemma NextStart(bytes: seq<byte>, prog: seq<Ins>, i: nat)
    requires Tiles(bytes, 0, |bytes|, prog) && i < |prog|
    ensures var next := prog[i].offset + Size(prog[i]);
      if i + 1 < |prog| then next == prog[i + 1].offset && next < |bytes| else next == |bytes|
  {
    if i + 1 < |prog| { OffsetsIncrease(bytes, prog, i, i + 1); }
  }

  /** Change of depth on the way to a successor. */
  function Step(g: Graph, i: nat): int
    requires i < |g.prog|
  {
    var d := Delta(g.prog[i].op.mnemonic);
    if d.Some? then d.value else 0
  }

  predicate Terminal(m: Mnemonic) { m == JMP || Returns(m) }

  /** Change of depth on the way out: none for the instructions that end control. */
  function LeaveStep(g: Graph, i: nat): int
    requires i < |g.prog|
  {
    if Terminal(g.prog[i].op.mnemonic) then 0 else Step(g, i)
  }

  /** Where control may leave the block. */
  ghost predicate Out(bytes: seq<byte>, g: Graph, i: nat)
    requires WellFormed(g) && i < |g.prog|
  {
    g.exits[i] || Lost(bytes, g.prog, i)
  }

  lemma OpFacts(op: Op)
    requires Sensible(op)
    ensures op.mode == Relative ==> !Terminal(op.mnemonic) && Delta(op.mnemonic) == Some(0)
    ensures Returns(op.mnemonic) || op.mnemonic in {PHA, PHP, PLA, PLP} ==> op.mode == Implied
  {
  }

  // What `May`, the edges and the exits come to, for each kind of instruction.

  lemma BranchForm(bytes: seq<byte>, targets: map<nat, nat>, prog: seq<Ins>, i: nat, depth: int, o: Outcome)
    requires i < |prog| && prog[i].offset + Size(prog[i]) <= |bytes|
      && Decode(bytes[prog[i].offset]) == Some(prog[i].op)
    requires prog[i].op.mode == Relative
    ensures May(bytes, targets, prog[i].offset, depth, o) <==>
      o == To(bytes, prog[i].offset + 2, depth) || o == To(bytes, BranchTarget(bytes, prog[i]), depth)
    ensures Successors(bytes, targets, prog, i) == Next(prog, i) + Found(IndexOf(prog, BranchTarget(bytes, prog[i])))
    ensures IsExit(targets, prog, i) <==> i + 1 >= |prog|
  {
    hide Decode, Sensible, IndexOf, To;
  }

  lemma JumpForm(bytes: seq<byte>, targets: map<nat, nat>, prog: seq<Ins>, i: nat, depth: int, o: Outcome)
    requires i < |prog| && prog[i].offset + Size(prog[i]) <= |bytes|
      && Decode(bytes[prog[i].offset]) == Some(prog[i].op)
    requires prog[i].op.mnemonic == JMP
    ensures var at := prog[i].offset + 1;
      May(bytes, targets, prog[i].offset, depth, o) <==>
        o == if at in targets then To(bytes, targets[at], depth) else Leave(depth)
    ensures Successors(bytes, targets, prog, i) == Found(JumpTarget(prog, targets, prog[i]))
    ensures IsExit(targets, prog, i) <==> JumpTarget(prog, targets, prog[i]).None?
  {
    hide Decode, IndexOf, To, JumpTarget;
  }

  lemma PlainMay(bytes: seq<byte>, targets: map<nat, nat>, g: Graph, i: nat, depth: int, o: Outcome)
    requires i < |g.prog| && g.prog[i].offset + Size(g.prog[i]) <= |bytes|
      && Decode(bytes[g.prog[i].offset]) == Some(g.prog[i].op)
    requires g.prog[i].op.mnemonic != JMP && g.prog[i].op.mode != Relative
    ensures var ins := g.prog[i];
      May(bytes, targets, ins.offset, depth, o) <==>
        o == if Returns(ins.op.mnemonic) then Leave(depth) else To(bytes, ins.offset + Size(ins), depth + Step(g, i))
  {
    hide Decode, Sensible, To;
    OpFacts(g.prog[i].op);
  }

  lemma PlainForm(bytes: seq<byte>, targets: map<nat, nat>, g: Graph, i: nat, depth: int, o: Outcome)
    requires i < |g.prog| && g.prog[i].offset + Size(g.prog[i]) <= |bytes|
      && Decode(bytes[g.prog[i].offset]) == Some(g.prog[i].op)
    requires g.prog[i].op.mnemonic != JMP && g.prog[i].op.mode != Relative
    ensures var ins := g.prog[i];
      May(bytes, targets, ins.offset, depth, o) <==>
        o == if Returns(ins.op.mnemonic) then Leave(depth) else To(bytes, ins.offset + Size(ins), depth + Step(g, i))
    ensures Successors(bytes, targets, g.prog, i) == if Returns(g.prog[i].op.mnemonic) then [] else Next(g.prog, i)
    ensures IsExit(targets, g.prog, i) <==> Returns(g.prog[i].op.mnemonic) || i + 1 >= |g.prog|
  {
    hide Decode, Sensible, To, IndexOf, May, Step, Returns;
    PlainMay(bytes, targets, g, i, depth, o);
  }

  lemma MayBranch(bytes: seq<byte>, targets: map<nat, nat>, g: Graph, i: nat, depth: int, o: Outcome) returns (j: nat)
    requires Tiles(bytes, 0, |bytes|, g.prog) && i < |g.prog| && OrdinaryAt(bytes, targets, g.prog, i)
    requires g.prog[i].op.mode == Relative && May(bytes, targets, g.prog[i].offset, depth, o)
    ensures o.Goto? ==> j < |g.prog| && j in Successors(bytes, targets, g.prog, i) && o == Goto(g.prog[j].offset, depth)
    ensures o.Leave? ==> (IsExit(targets, g.prog, i) || Lost(bytes, g.prog, i)) && o.depth == depth
  {
    hide Decode, Sensible, May, Successors, IsExit, IndexOf;
    var ins := g.prog[i];
    assert ins.offset + Size(ins) <= |bytes| && Decode(bytes[ins.offset]) == Some(ins.op);
    NextStart(bytes, g.prog, i);
    BranchForm(bytes, targets, g.prog, i, depth, o);
    OpFacts(ins.op);
    hide Tiles;
    j := i;
    if o.Goto? {
      var s := Successors(bytes, targets, g.prog, i);
      if o.pc == ins.offset + 2 {
        j := i + 1;
        assert s[0] == j;
      } else {
        j := IndexOf(g.prog, BranchTarget(bytes, ins)).value;
        assert s[|s| - 1] == j;
      }
    }
  }

  lemma MayJump(bytes: seq<byte>, targets: map<nat, nat>, g: Graph, i: nat, depth: int, o: Outcome) returns (j: nat)
    requires Tiles(bytes, 0, |bytes|, g.prog) && i < |g.prog| && OrdinaryAt(bytes, targets, g.prog, i)
    requires g.prog[i].op.mnemonic == JMP && May(bytes, targets, g.prog[i].offset, depth, o)
    ensures o.Goto? ==> j < |g.prog| && j in Successors(bytes, targets, g.prog, i) && o == Goto(g.prog[j].offset, depth)
    ensures o.Leave? ==> IsExit(targets, g.prog, i) && o.depth == depth
  {
    hide Decode, Sensible, May, Successors, IsExit, IndexOf, Tiles;
    var ins := g.prog[i];
    TileAt(bytes, g.prog, i);
    JumpForm(bytes, targets, g.prog, i, depth, o);
    j := i;
    if JumpTarget(g.prog, targets, ins).Some? { TileAt(bytes, g.prog, JumpTarget(g.prog, targets, ins).value); }
    if o.Goto? {
      j := IndexOf(g.prog, targets[ins.offset + 1]).value;
      assert Successors(bytes, targets, g.prog, i)[0] == j;
    }
  }

  lemma MayPlain(bytes: seq<byte>, targets: map<nat, nat>, g: Graph, i: nat, depth: int, o: Outcome) returns (j: nat)
    requires Tiles(bytes, 0, |bytes|, g.prog) && i < |g.prog| && OrdinaryAt(bytes, targets, g.prog, i)
    requires g.prog[i].op.mode != Relative && g.prog[i].op.mnemonic != JMP
      && May(bytes, targets, g.prog[i].offset, depth, o)
    ensures o.Goto? ==>
      j < |g.prog| && j in Successors(bytes, targets, g.prog, i) && o == Goto(g.prog[j].offset, depth + Step(g, i))
    ensures o.Leave? ==> IsExit(targets, g.prog, i) && o.depth == depth + LeaveStep(g, i)
  {
    hide Decode, Sensible, May, Successors, IsExit, OrdinaryAt;
    var ins := g.prog[i];
    assert ins.offset + Size(ins) <= |bytes| && Decode(bytes[ins.offset]) == Some(ins.op);
    NextStart(bytes, g.prog, i);
    PlainForm(bytes, targets, g, i, depth, o);
    hide Tiles;
    j := i;
    if o.Goto? {
      j := i + 1;
      assert Successors(bytes, targets, g.prog, i)[0] == j;
    }
  }

  /** Leaving an instruction: along an edge with the depth its table entry says, or out through an exit. */
  lemma MayMatchesGraph(bytes: seq<byte>, targets: map<nat, nat>, g: Graph, i: nat, depth: int, o: Outcome)
    returns (j: nat)
    requires WellFormed(g) && IsGraph(bytes, targets, g)
    requires i < |g.prog| && OrdinaryAt(bytes, targets, g.prog, i)
    requires May(bytes, targets, g.prog[i].offset, depth, o)
    ensures o.Goto? ==> j < |g.prog| && Edge(g, i, j) && o == Goto(g.prog[j].offset, depth + Step(g, i))
    ensures o.Leave? ==> Out(bytes, g, i) && o.depth == depth + LeaveStep(g, i)
  {
    hide Decode, Decoded, May, Successors, IsExit, OrdinaryAt, Lost;
    var ins := g.prog[i];
    AtInstruction(bytes, targets, g, i);
    if ins.op.mode == Relative {
      j := MayBranch(bytes, targets, g, i, depth, o);
    } else if ins.op.mnemonic == JMP {
      j := MayJump(bytes, targets, g, i, depth, o);
    } else {
      j := MayPlain(bytes, targets, g, i, depth, o);
    }
  }

  /** Each point of a run is at the end of a path, at the depth that adds up on the way. */
  lemma {:induction false} RunIsPath(bytes: seq<byte>, targets: map<nat, nat>, g: Graph, run: seq<(nat, int)>, k: nat)
    returns (path: seq<nat>)
    requires WellFormed(g) && IsGraph(bytes, targets, g) && g.prog != [] && Ordinary(bytes, targets, g)
    requires IsRun(bytes, targets, run) && k < |run|
    ensures IsPath(g, path) && run[k] == (g.prog[path[|path| - 1]].offset, Along(g, path))
    decreases k
  {
    hide IsGraph, May, OrdinaryAt, WellFormed, Edge, Step, Reachable;
    if k == 0 {
      path := [0];
      EntryRun(bytes, targets, g);
    } else {
      var before := RunIsPath(bytes, targets, g, run, k - 1);
      RunStep(bytes, targets, run, k);
      hide IsRun;
      PathReaches(g, before);
      var p := before[|before| - 1];
      var i := MayMatchesGraph(bytes, targets, g, p, Along(g, before), Goto(run[k].0, run[k].1));
      path := before + [i];
      assert path[..|before|] == before;
    }
  }

  lemma RunStep(bytes: seq<byte>, targets: map<nat, nat>, run: seq<(nat, int)>, k: nat)
    requires IsRun(bytes, targets, run) && 0 < k < |run|
    ensures May(bytes, targets, run[k - 1].0, run[k - 1].1, Goto(run[k].0, run[k].1))
  {
    hide May;
  }

  lemma ExtendRun(bytes: seq<byte>, targets: map<nat, nat>, run: seq<(nat, int)>, at: (nat, int))
    requires IsRun(bytes, targets, run) && May(bytes, targets, run[|run| - 1].0, run[|run| - 1].1, Goto(at.0, at.1))
    ensures IsRun(bytes, targets, run + [at])
  {
    hide May;
  }

  /** Change of depth from the first instruction to the last. */
  function Along(g: Graph, w: seq<nat>): int
    requires forall k :: 0 <= k < |w| ==> w[k] < |g.prog|
  {
    if |w| <= 1 then 0 else Along(g, w[..|w| - 1]) + Step(g, w[|w| - 2])
  }

  /** Along a path a run visits the same instructions, at the depths that add up on the way. */
  lemma {:induction false} RunOnPath(bytes: seq<byte>, targets: map<nat, nat>, g: Graph, path: seq<nat>)
    returns (run: seq<(nat, int)>)
    requires WellFormed(g) && IsGraph(bytes, targets, g) && Ordinary(bytes, targets, g) && IsPath(g, path)
    ensures IsRun(bytes, targets, run) && run[|run| - 1] == (g.prog[path[|path| - 1]].offset, Along(g, path))
    decreases |path|
  {
    hide IsRun, IsGraph, Ordinary, OrdinaryAt, Step, Edge, Reachable;
    if |path| == 1 {
      EntryRun(bytes, targets, g);
      run := [(0, 0)];
    } else {
      var n := |path| - 1;
      var before := RunOnPath(bytes, targets, g, path[..n]);
      assert Edge(g, path[n - 1], path[n]);
      PathReaches(g, path[..n]);
      run := RunOneMore(bytes, targets, g, before, path[n - 1], path[n], Along(g, path[..n]));
    }
  }

  lemma EntryRun(bytes: seq<byte>, targets: map<nat, nat>, g: Graph)
    requires IsGraph(bytes, targets, g) && g.prog != []
    ensures IsRun(bytes, targets, [(0, 0)]) && g.prog[0].offset == 0
  {
    hide Sensible, Decode, GraphOf, May;
  }

  lemma RunOneMore(bytes: seq<byte>, targets: map<nat, nat>, g: Graph, r: seq<(nat, int)>, p: nat, i: nat, depth: int)
    returns (run: seq<(nat, int)>)
    requires WellFormed(g) && IsGraph(bytes, targets, g) && Ordinary(bytes, targets, g)
    requires p < |g.prog| && i < |g.prog| && Edge(g, p, i) && Reachable(g, p)
    requires IsRun(bytes, targets, r) && r[|r| - 1] == (g.prog[p].offset, depth)
    ensures IsRun(bytes, targets, run) && run[|run| - 1] == (g.prog[i].offset, depth + Step(g, p))
  {
    hide IsGraph, Step, Edge, May, IsRun, Reachable;
    EdgeMay(bytes, targets, g, p, i, depth);
    IsRunSome(bytes, targets, r);
    ExtendRun(bytes, targets, r, (g.prog[i].offset, depth + Step(g, p)));
    run := r + [(g.prog[i].offset, depth + Step(g, p))];
  }

  lemma IsRunSome(bytes: seq<byte>, targets: map<nat, nat>, r: seq<(nat, int)>)
    requires IsRun(bytes, targets, r)
    ensures |r| > 0
  {
  }

  // ----- labels and paths -----

  /** The edges back to the entry, which a labelling does not constrain, come back at depth zero. */
  ghost predicate Closed(g: Graph, labels: seq<int>)
    requires WellFormed(g) && |labels| == |g.prog|
  {
    forall p :: 0 <= p < |g.prog| && Reachable(g, p) && Edge(g, p, 0) ==> labels[p] + Step(g, p) == 0
  }

  /** A path that does not come back to the entry. */
  ghost predicate Onward(path: seq<nat>) { forall k :: 0 < k < |path| ==> path[k] != 0 }

  lemma ClosedStep(g: Graph, labels: seq<int>, p: nat)
    requires WellFormed(g) && |labels| == |g.prog| && Closed(g, labels) && p < |g.prog| && Reachable(g, p)
      && Edge(g, p, 0)
    ensures labels[p] + Step(g, p) == 0
  {
    hide Reachable, Edge;
  }

  lemma {:induction false} AlongIsLabel(g: Graph, labels: seq<int>, path: seq<nat>)
    requires WellFormed(g) && |labels| == |g.prog| && Labels(g, labels) && IsPath(g, path)
    requires Closed(g, labels) || Onward(path)
    ensures Along(g, path) == labels[path[|path| - 1]]
    decreases |path|
  {
    hide Labels, Reachable, Step, Closed;
    var n := |path| - 1;
    LabelOfStart(g, labels);
    if n > 0 {
      var p, i := path[n - 1], path[n];
      AlongIsLabel(g, labels, path[..n]);
      assert Edge(g, p, i);
      PathReaches(g, path[..n]);
      if i == 0 { ClosedStep(g, labels, p); } else { LabelStep(g, labels, p, i); }
    }
  }

  /** Cut a path at its last visit to the entry. */
  lemma {:induction false} FromLastEntry(g: Graph, path: seq<nat>) returns (last: seq<nat>)
    requires WellFormed(g) && IsPath(g, path)
    ensures IsPath(g, last) && last[|last| - 1] == path[|path| - 1] && Onward(last)
    decreases |path|
  {
    last := path;
    if k :| 0 < k < |path| && path[k] == 0 {
      hide Edge;
      assert IsPath(g, path[k..]);
      last := FromLastEntry(g, path[k..]);
    }
  }

  /** Every reachable instruction is reached at its label. */
  lemma PathAtLabel(g: Graph, labels: seq<int>, i: nat) returns (path: seq<nat>)
    requires WellFormed(g) && |labels| == |g.prog| && Labels(g, labels) && Reachable(g, i)
    ensures IsPath(g, path) && path[|path| - 1] == i && Along(g, path) == labels[i]
  {
    hide Labels;
    path := PathTo(g, i);
    path := FromLastEntry(g, path);
    AlongIsLabel(g, labels, path);
  }

  /**
   * Where the edges back to the entry are at depth zero, each point of a run is a reachable instruction at its label.
   */
  lemma RunAtLabels(bytes: seq<byte>, targets: map<nat, nat>, g: Graph, labels: seq<int>, run: seq<(nat, int)>, k: nat)
    returns (i: nat)
    requires WellFormed(g) && IsGraph(bytes, targets, g) && g.prog != [] && Ordinary(bytes, targets, g)
    requires |labels| == |g.prog| && Labels(g, labels) && Closed(g, labels)
    requires IsRun(bytes, targets, run) && k < |run|
    ensures i < |g.prog| && Reachable(g, i) && run[k] == (g.prog[i].offset, labels[i])
  {
    hide IsGraph, Labels, Closed, IsRun, Ordinary, Along, WellFormed;
    var path := RunIsPath(bytes, targets, g, run, k);
    AlongIsLabel(g, labels, path);
    i := path[|path| - 1];
  }

  /** A run comes to every reachable instruction at its label, whatever the edges back to the entry do. */
  lemma RunToLabel(bytes: seq<byte>, targets: map<nat, nat>, g: Graph, labels: seq<int>, i: nat)
    returns (run: seq<(nat, int)>)
    requires WellFormed(g) && IsGraph(bytes, targets, g) && Ordinary(bytes, targets, g)
    requires |labels| == |g.prog| && Labels(g, labels) && Reachable(g, i)
    ensures i < |g.prog| && IsRun(bytes, targets, run) && run[|run| - 1] == (g.prog[i].offset, labels[i])
  {
    hide IsGraph, Labels, WellFormed, Along, Ordinary, IsRun;
    var path := PathAtLabel(g, labels, i);
    run := RunOnPath(bytes, targets, g, path);
  }

  lemma PathReaches(g: Graph, path: seq<nat>)
    requires WellFormed(g) && IsPath(g, path)
    ensures Reachable(g, path[|path| - 1])
  {
  }

  lemma EdgeBranch(bytes: seq<byte>, targets: map<nat, nat>, g: Graph, p: nat, i: nat, depth: int)
    requires Tiles(bytes, 0, |bytes|, g.prog) && p < |g.prog| && i < |g.prog| && g.prog[p].op.mode == Relative
    requires i in Successors(bytes, targets, g.prog, p)
    ensures May(bytes, targets, g.prog[p].offset, depth, Goto(g.prog[i].offset, depth))
  {
    hide Decode, Sensible, May, Successors, IsExit, Tiles, Decoded;
    TileAt(bytes, g.prog, p);
    TileAt(bytes, g.prog, i);
    NextStart(bytes, g.prog, p);
    BranchForm(bytes, targets, g.prog, p, depth, Goto(g.prog[i].offset, depth));
  }

  lemma TileAt(bytes: seq<byte>, prog: seq<Ins>, i: nat)
    requires Tiles(bytes, 0, |bytes|, prog) && i < |prog|
    ensures var ins := prog[i];
      ins.offset + Size(ins) <= |bytes| && ins.offset < |bytes| && Decode(bytes[ins.offset]) == Some(ins.op)
  {
    hide Decode;
  }

  lemma EdgeJump(bytes: seq<byte>, targets: map<nat, nat>, g: Graph, p: nat, i: nat, depth: int)
    requires Tiles(bytes, 0, |bytes|, g.prog) && p < |g.prog| && i < |g.prog| && g.prog[p].op.mnemonic == JMP
    requires i in Successors(bytes, targets, g.prog, p)
    ensures May(bytes, targets, g.prog[p].offset, depth, Goto(g.prog[i].offset, depth))
  {
    hide Decode, Sensible, May, Successors, IsExit;
    var ins := g.prog[p];
    assert ins.offset + Size(ins) <= |bytes| && Decode(bytes[ins.offset]) == Some(ins.op);
    assert g.prog[i].offset < |bytes|;
    hide Tiles;
    JumpForm(bytes, targets, g.prog, p, depth, Goto(g.prog[i].offset, depth));
  }

  lemma EdgePlain(bytes: seq<byte>, targets: map<nat, nat>, g: Graph, p: nat, i: nat, depth: int)
    requires Tiles(bytes, 0, |bytes|, g.prog) && p < |g.prog| && i < |g.prog|
    requires g.prog[p].op.mode != Relative && g.prog[p].op.mnemonic != JMP && g.prog[p].op.mnemonic != TXS
    requires i in Successors(bytes, targets, g.prog, p)
    ensures May(bytes, targets, g.prog[p].offset, depth, Goto(g.prog[i].offset, depth + Step(g, p)))
  {
    hide Decode, Sensible, May, Successors, IsExit, Tiles, Step, Size, Decoded;
    TileAt(bytes, g.prog, p);
    TileAt(bytes, g.prog, i);
    NextStart(bytes, g.prog, p);
    PlainForm(bytes, targets, g, p, depth, Goto(g.prog[i].offset, depth + Step(g, p)));
  }

  /** Every edge is a possible step. */
  lemma EdgeMay(bytes: seq<byte>, targets: map<nat, nat>, g: Graph, p: nat, i: nat, depth: int)
    requires WellFormed(g) && IsGraph(bytes, targets, g)
    requires p < |g.prog| && i < |g.prog| && Edge(g, p, i) && g.prog[p].op.mnemonic != TXS
    ensures May(bytes, targets, g.prog[p].offset, depth, Goto(g.prog[i].offset, depth + Step(g, p)))
  {
    hide Decode, GraphOf, Tiles, May, Successors, WellFormed;
    AtInstruction(bytes, targets, g, p);
    if g.prog[p].op.mode == Relative {
      EdgeBranch(bytes, targets, g, p, i, depth);
    } else if g.prog[p].op.mnemonic == JMP {
      EdgeJump(bytes, targets, g, p, i, depth);
    } else {
      EdgePlain(bytes, targets, g, p, i, depth);
    }
  }

  lemma ExitJump(bytes: seq<byte>, targets: map<nat, nat>, prog: seq<Ins>, i: nat, depth: int)
    requires Tiles(bytes, 0, |bytes|, prog) && i < |prog| && prog[i].op.mnemonic == JMP
    requires IsExit(targets, prog, i) && OrdinaryAt(bytes, targets, prog, i)
    ensures May(bytes, targets, prog[i].offset, depth, Leave(depth))
  {
    hide Decode, Sensible, May, Successors, IsExit, IndexOf;
    var ins := prog[i];
    assert ins.offset + Size(ins) <= |bytes| && Decode(bytes[ins.offset]) == Some(ins.op);
    JumpForm(bytes, targets, prog, i, depth, Leave(depth));
    hide Tiles;
    if ins.offset + 1 in targets {
      assert targets[ins.offset + 1] >= |bytes|;
    }
  }

  lemma ExitOther(bytes: seq<byte>, targets: map<nat, nat>, g: Graph, i: nat, depth: int)
    requires Tiles(bytes, 0, |bytes|, g.prog) && i < |g.prog| && g.prog[i].op.mnemonic != JMP
    requires IsExit(targets, g.prog, i)
    ensures May(bytes, targets, g.prog[i].offset, depth, Leave(depth + LeaveStep(g, i)))
  {
    hide Decode, Sensible, May, Successors, IsExit;
    var ins := g.prog[i];
    assert ins.offset + Size(ins) <= |bytes| && Decode(bytes[ins.offset]) == Some(ins.op);
    NextStart(bytes, g.prog, i);
    hide Tiles;
    OpFacts(ins.op);
    var o := Leave(depth + LeaveStep(g, i));
    if ins.op.mode == Relative {
      BranchForm(bytes, targets, g.prog, i, depth, o);
    } else {
      PlainForm(bytes, targets, g, i, depth, o);
    }
  }

  /** A lost branch leads out. */
  lemma LostMay(bytes: seq<byte>, targets: map<nat, nat>, g: Graph, i: nat, depth: int)
    requires Tiles(bytes, 0, |bytes|, g.prog) && i < |g.prog| && Lost(bytes, g.prog, i)
    ensures May(bytes, targets, g.prog[i].offset, depth, Leave(depth)) && LeaveStep(g, i) == 0
  {
    hide Decode, Sensible, May, Successors, IsExit, IndexOf, Tiles;
    TileAt(bytes, g.prog, i);
    BranchForm(bytes, targets, g.prog, i, depth, Leave(depth));
    LostOp(bytes, g, i);
  }

  lemma LostOp(bytes: seq<byte>, g: Graph, i: nat)
    requires i < |g.prog| && Lost(bytes, g.prog, i) && Decode(bytes[g.prog[i].offset]) == Some(g.prog[i].op)
    ensures LeaveStep(g, i) == 0
  {
    hide Decode;
    OpFacts(g.prog[i].op);
  }

  /** Every exit and every lost branch is a possible way out. */
  lemma OutMay(bytes: seq<byte>, targets: map<nat, nat>, g: Graph, i: nat, depth: int)
    requires WellFormed(g) && IsGraph(bytes, targets, g)
    requires i < |g.prog| && Out(bytes, g, i) && OrdinaryAt(bytes, targets, g.prog, i)
    ensures May(bytes, targets, g.prog[i].offset, depth, Leave(depth + LeaveStep(g, i)))
  {
    hide Decode, GraphOf, Tiles, May, IsExit, WellFormed, Lost, LeaveStep, OrdinaryAt;
    if Lost(bytes, g.prog, i) {
      LostMay(bytes, targets, g, i, depth);
    } else {
      AtInstruction(bytes, targets, g, i);
      if g.prog[i].op.mnemonic == JMP {
        ExitJump(bytes, targets, g.prog, i, depth);
        JumpLeaves(g, i);
      } else {
        ExitOther(bytes, targets, g, i, depth);
      }
    }
  }

  lemma JumpLeaves(g: Graph, i: nat)
    requires i < |g.prog| && g.prog[i].op.mnemonic == JMP
    ensures LeaveStep(g, i) == 0
  {
  }

  // ----- the report -----

  function ExitDepth(g: Graph, depth: seq<Option<int>>, i: nat): Option<int>
    requires |depth| == |g.prog| && i < |g.prog|
  {
    var delta := Delta(g.prog[i].op.mnemonic);
    if depth[i].None? then None
    else if Terminal(g.prog[i].op.mnemonic) then depth[i]
    else if delta.Some? then Some(depth[i].value + delta.value)
    else None
  }

  predicate CountedExit(g: Graph, f: Flow, i: nat)
    requires WellFormed(g) && FlowFor(g, f) && i < |g.prog|
  {
    g.exits[i] && f.defs.into[i].Some?
  }

  predicate Balanced(g: Graph, f: Flow)
    requires WellFormed(g) && FlowFor(g, f)
  {
    forall i :: 0 <= i < |g.prog| && CountedExit(g, f, i) ==> ExitDepth(g, f.depth, i) == Some(0)
  }

  /** An exit nothing reaches, yet listed because some other unreachable instruction leads to it. */
  ghost predicate OrphanExit(g: Graph, i: nat)
    requires WellFormed(g) && i < |g.prog|
  {
    g.exits[i] && !Reachable(g, i) && Preds(g, i) != []
  }

  lemma IncomingIffPredecessor(g: Graph, n: nat, i: nat)
    requires WellFormed(g) && After(g, n + 1).defs == After(g, n).defs && i < |g.prog|
    ensures After(g, n).defs.into[i].Some? <==> i == 0 || Preds(g, i) != []
  {
    hide After, Meet, Preds;
    SettledSolves(g, n);
    assert CellSolved(g, After(g, n).defs, i);
  }

  lemma ReachedHasPredecessor(g: Graph, i: nat)
    requires WellFormed(g) && Reachable(g, i)
    ensures i < |g.prog| && (i == 0 || Preds(g, i) != [])
  {
    var path := PathTo(g, i);
    var k := |path| - 1;
    if i != 0 {
      assert Edge(g, path[k - 1], path[k]);
      PredsExact(g, i, path[k - 1]);
    }
  }

  /** Settled depths that cover the reachable instructions are a labelling. */
  lemma SettledLabels(g: Graph, n: nat) returns (labels: seq<int>)
    requires WellFormed(g) && After(g, n + 1).depth == After(g, n).depth
    requires forall i :: 0 <= i < |g.prog| && Reachable(g, i) ==> After(g, n).depth[i].Some?
    requires forall p, i :: 0 <= p < |g.prog| && Reachable(g, p) && Edge(g, p, i) ==> Delta(g.prog[p].op.mnemonic).Some?
    ensures |labels| == |g.prog| && Labels(g, labels)
    ensures forall i :: 0 <= i < |g.prog| && After(g, n).depth[i].Some? ==> labels[i] == After(g, n).depth[i].value
  {
    hide Reachable, Join, Delta;
    var depth := After(g, n).depth;
    labels := seq(|g.prog|, i requires 0 <= i < |g.prog| => if depth[i].Some? then depth[i].value else 0);
    DepthFixed(g, depth, 0);
    if g.prog != [] { EntryDepth(g, n); }
    forall p, i | 0 <= p < |g.prog| && 0 < i < |g.prog| && Reachable(g, p) && Edge(g, p, i)
      ensures Consistent(g, labels, p, i)
    {
      ReachStep(g, p, i);
      PredsExact(g, i, p);
      var ps := Preds(g, i);
      var k :| 0 <= k < |ps| && ps[k] == p;
      assert DepthAt(g, depth, i) == depth;
      assert Join(g, depth, ps) == depth[i];
      assert Candidate(g, depth, ps[k]) == depth[i];
    }
  }

  lemma {:induction false} EntryDepth(g: Graph, n: nat)
    requires WellFormed(g) && g.prog != []
    ensures After(g, n).depth[0] == Some(0)
  {
    if n > 0 {
      hide DefsSweep;
      DepthLeaves(g, DepthAt(g, After(g, n - 1).depth, 0), 1, 0);
    }
  }

  lemma EdgesHaveDelta(bytes: seq<byte>, targets: map<nat, nat>, g: Graph, p: nat, i: nat)
    requires WellFormed(g) && IsGraph(bytes, targets, g)
    requires p < |g.prog| && Edge(g, p, i) && g.prog[p].op.mnemonic != TXS
    ensures Delta(g.prog[p].op.mnemonic).Some?
  {
    hide Decode, Decoded, IsGraph, WellFormed, Sensible, IsExit, IndexOf;
    AtInstruction(bytes, targets, g, p);
    OpFacts(g.prog[p].op);
    assert !Returns(g.prog[p].op.mnemonic);
  }

  // ----- when the report says balanced, and when the runs are -----

  ghost predicate NoOrphans(g: Graph)
    requires WellFormed(g)
  {
    forall i :: 0 <= i < |g.prog| ==> !OrphanExit(g, i)
  }

  /** All reachable exits are left at depth zero. */
  ghost predicate ZeroAtExits(g: Graph, labels: seq<int>)
    requires WellFormed(g) && |labels| == |g.prog|
  {
    forall i :: 0 <= i < |g.prog| && g.exits[i] && Reachable(g, i) ==> labels[i] + LeaveStep(g, i) == 0
  }

  /** So are all reachable branches out of the block. */
  ghost predicate LostAtZero(bytes: seq<byte>, g: Graph, labels: seq<int>)
    requires WellFormed(g) && |labels| == |g.prog|
  {
    forall i :: 0 <= i < |g.prog| && Lost(bytes, g.prog, i) && Reachable(g, i) ==> labels[i] == 0
  }

  /** Control can get out of the block at all. */
  ghost predicate Leaves(bytes: seq<byte>, g: Graph)
    requires WellFormed(g)
  {
    exists i :: 0 <= i < |g.prog| && Reachable(g, i) && Out(bytes, g, i)
  }

  /** No reachable instruction loads S. */
  ghost predicate KeepsS(g: Graph)
    requires WellFormed(g)
  {
    forall i :: 0 <= i < |g.prog| && Reachable(g, i) ==> g.prog[i].op.mnemonic != TXS
  }

  lemma KnownExit(g: Graph, depth: seq<Option<int>>, i: nat)
    requires |depth| == |g.prog| && i < |g.prog| && g.prog[i].op.mnemonic != TXS
    ensures ExitDepth(g, depth, i) == Some(0) <==> depth[i].Some? && depth[i].value + LeaveStep(g, i) == 0
  {
  }

  lemma OrdinaryKeepsS(bytes: seq<byte>, targets: map<nat, nat>, g: Graph)
    requires WellFormed(g) && Ordinary(bytes, targets, g)
    ensures KeepsS(g)
  {
    hide Reachable, Lost;
    forall i | 0 <= i < |g.prog| && Reachable(g, i)
      ensures g.prog[i].op.mnemonic != TXS
    {
      assert OrdinaryAt(bytes, targets, g.prog, i);
    }
  }

  /** What the report says: balanced if and only if every reachable exit is at depth zero and no exit is an orphan. */
  lemma BalancedOnLabels(g: Graph, labels: seq<int>, n: nat)
    requires WellFormed(g) && g.prog != [] && KeepsS(g)
    requires |labels| == |g.prog| && Labels(g, labels) && After(g, n + 1) == After(g, n)
    ensures Balanced(g, After(g, n)) <==> ZeroAtExits(g, labels) && NoOrphans(g)
  {
    hide After, Reachable, Labels, Preds, LeaveStep, ExitDepth;
    var f := After(g, n);
    SettledDepthIsLabelling(g, labels, n);
    ReachEntry(g);
    forall i | 0 <= i < |g.prog|
      ensures CountedExit(g, f, i) <==> g.exits[i] && (Reachable(g, i) || OrphanExit(g, i))
      ensures ExitDepth(g, f.depth, i) == Some(0) <==> Reachable(g, i) && labels[i] + LeaveStep(g, i) == 0
    {
      IncomingIffPredecessor(g, n, i);
      if Reachable(g, i) {
        ReachedHasPredecessor(g, i);
        KnownExit(g, f.depth, i);
      } else {
        NoDepth(g, f.depth, i);
      }
    }
  }

  lemma NoDepth(g: Graph, depth: seq<Option<int>>, i: nat)
    requires |depth| == |g.prog| && i < |g.prog| && depth[i].None?
    ensures ExitDepth(g, depth, i) == None
  {
  }

  /** A run leaves wherever control may leave from a reachable instruction, at its label. */
  lemma RunOut(bytes: seq<byte>, targets: map<nat, nat>, g: Graph, labels: seq<int>, i: nat)
    returns (run: seq<(nat, int)>)
    requires WellFormed(g) && IsGraph(bytes, targets, g) && Ordinary(bytes, targets, g)
    requires |labels| == |g.prog| && Labels(g, labels)
    requires i < |g.prog| && Out(bytes, g, i) && Reachable(g, i)
    ensures LeavesAt(bytes, targets, run, labels[i] + LeaveStep(g, i))
  {
    hide Reachable, May, IsGraph, Labels, OrdinaryAt, WellFormed, LeaveStep, IsRun, Out;
    run := RunToLabel(bytes, targets, g, labels, i);
    OutMay(bytes, targets, g, i, labels[i]);
  }

  /** From the end of a path back to the entry, and along another path. */
  lemma {:induction false} JoinAtEntry(g: Graph, v: seq<nat>, w: seq<nat>)
    requires WellFormed(g) && IsPath(g, v) && IsPath(g, w) && Edge(g, v[|v| - 1], 0)
    ensures IsPath(g, v + w) && Along(g, v + w) == Along(g, v) + Step(g, v[|v| - 1]) + Along(g, w)
    decreases |w|
  {
    hide WellFormed, Edge, Step;
    var all := v + w;
    if |w| == 1 {
      assert all[..|v|] == v;
    } else {
      var init := w[..|w| - 1];
      JoinAtEntry(g, v, init);
      assert all[..|all| - 1] == v + init;
    }
  }

  /** If control can get out, the loops back to the entry of a balanced block come back at depth zero. */
  lemma BalancedCloses(bytes: seq<byte>, targets: map<nat, nat>, g: Graph, labels: seq<int>, i: nat, p: nat)
    requires WellFormed(g) && IsGraph(bytes, targets, g) && Ordinary(bytes, targets, g)
    requires |labels| == |g.prog| && Labels(g, labels) && RunsBalanced(bytes, targets)
    requires i < |g.prog| && Out(bytes, g, i) && Reachable(g, i)
    requires p < |g.prog| && Reachable(g, p) && Edge(g, p, 0)
    ensures labels[p] + Step(g, p) == 0
  {
    hide Reachable, May, IsGraph, Labels, OrdinaryAt, WellFormed, LeaveStep, IsRun, Out, Step, Along, Edge, IsPath;
    var v := PathAtLabel(g, labels, p);
    var w := PathAtLabel(g, labels, i);
    PathRange(g, v);
    PathRange(g, w);
    JoinAtEntry(g, v, w);
    PathRange(g, v + w);
    var direct := RunOut(bytes, targets, g, labels, i);
    var around := RunOnPath(bytes, targets, g, v + w);
    var depth := Along(g, v + w);
    OutMay(bytes, targets, g, i, depth);
    assert LeavesAt(bytes, targets, around, depth + LeaveStep(g, i));
  }

  lemma PathRange(g: Graph, path: seq<nat>)
    requires WellFormed(g) && IsPath(g, path)
    ensures |path| > 0 && forall k :: 0 <= k < |path| ==> path[k] < |g.prog|
  {
  }

  lemma BalancedFacts(bytes: seq<byte>, targets: map<nat, nat>, g: Graph, labels: seq<int>)
    requires WellFormed(g) && IsGraph(bytes, targets, g) && Ordinary(bytes, targets, g)
    requires |labels| == |g.prog| && Labels(g, labels) && RunsBalanced(bytes, targets)
    ensures ZeroAtExits(g, labels) && LostAtZero(bytes, g, labels) && (Leaves(bytes, g) ==> Closed(g, labels))
  {
    hide Reachable, IsGraph, Labels, Ordinary, LeavesAt, LeaveStep, Lost, Step, Edge;
    forall i | 0 <= i < |g.prog| && Out(bytes, g, i) && Reachable(g, i)
      ensures labels[i] + LeaveStep(g, i) == 0
    {
      var run := RunOut(bytes, targets, g, labels, i);
    }
    forall i | 0 <= i < |g.prog| && Lost(bytes, g.prog, i) && Reachable(g, i)
      ensures labels[i] == 0
    {
      AtInstruction(bytes, targets, g, i);
      LostOp(bytes, g, i);
    }
    if i: nat :| 0 <= i < |g.prog| && Reachable(g, i) && Out(bytes, g, i) {
      forall p | 0 <= p < |g.prog| && Reachable(g, p) && Edge(g, p, 0)
        ensures labels[p] + Step(g, p) == 0
      {
        BalancedCloses(bytes, targets, g, labels, i, p);
      }
    }
  }

  lemma FactsBalance(bytes: seq<byte>, targets: map<nat, nat>, g: Graph, labels: seq<int>)
    requires WellFormed(g) && IsGraph(bytes, targets, g) && g.prog != [] && Ordinary(bytes, targets, g)
    requires |labels| == |g.prog| && Labels(g, labels)
    requires ZeroAtExits(g, labels) && LostAtZero(bytes, g, labels) && (Leaves(bytes, g) ==> Closed(g, labels))
    ensures RunsBalanced(bytes, targets)
  {
    hide Reachable, May, IsGraph, Labels, OrdinaryAt, WellFormed, Lost, LeaveStep, Along, Closed, IsRun, IsPath;
    forall run: seq<(nat, int)>, d: int | LeavesAt(bytes, targets, run, d)
      ensures d == 0
    {
      IsRunSome(bytes, targets, run);
      var path := RunIsPath(bytes, targets, g, run, |run| - 1);
      PathRange(g, path);
      PathReaches(g, path);
      var i := path[|path| - 1];
      var _ := MayMatchesGraph(bytes, targets, g, i, Along(g, path), Leave(d));
      assert Leaves(bytes, g);
      AlongIsLabel(g, labels, path);
      if Lost(bytes, g.prog, i) {
        AtInstruction(bytes, targets, g, i);
        LostOp(bytes, g, i);
      }
    }
  }

  /**
   * Which labelled blocks are balanced: those left at depth zero by every reachable exit and every reachable branch out
   * of the block, and entered again at depth zero by every edge back to the entry, if they can be left at all.
   */
  lemma RunsOnLabels(bytes: seq<byte>, targets: map<nat, nat>, g: Graph, labels: seq<int>)
    requires WellFormed(g) && GraphOf(bytes, targets) == Some(g) && g.prog != [] && Ordinary(bytes, targets, g)
    requires |labels| == |g.prog| && Labels(g, labels)
    ensures RunsBalanced(bytes, targets) <==>
      ZeroAtExits(g, labels) && LostAtZero(bytes, g, labels) && (Leaves(bytes, g) ==> Closed(g, labels))
  {
    GraphWellFormed(bytes, targets);
    assert IsGraph(bytes, targets, g);
    hide IsGraph, GraphOf, WellFormed, RunsBalanced, ZeroAtExits, LostAtZero, Leaves, Closed, Labels, Ordinary;
    if RunsBalanced(bytes, targets) {
      BalancedFacts(bytes, targets, g, labels);
    } else if ZeroAtExits(g, labels) && LostAtZero(bytes, g, labels) && (Leaves(bytes, g) ==> Closed(g, labels)) {
      FactsBalance(bytes, targets, g, labels);
    }
  }

  /**
   * The report when the sweeps have settled with a depth at every reachable instruction: those depths are a labelling,
   * and what the report says and what the runs do come to conditions on it.
   */
  lemma ReportIsExact(bytes: seq<byte>, targets: map<nat, nat>, g: Graph, n: nat) returns (labels: seq<int>)
    requires WellFormed(g) && GraphOf(bytes, targets) == Some(g) && g.prog != [] && Ordinary(bytes, targets, g)
    requires After(g, n + 1) == After(g, n) && forall i :: 0 <= i < |g.prog| && Reachable(g, i) ==>
      After(g, n).depth[i].Some?
    ensures |labels| == |g.prog| && Labels(g, labels)
    ensures forall i :: 0 <= i < |g.prog| ==> After(g, n).depth[i] == if Reachable(g, i) then Some(labels[i]) else None
    ensures Balanced(g, After(g, n)) <==> ZeroAtExits(g, labels) && NoOrphans(g)
    ensures RunsBalanced(bytes, targets) <==>
      ZeroAtExits(g, labels) && LostAtZero(bytes, g, labels) && (Leaves(bytes, g) ==> Closed(g, labels))
  {
    GraphWellFormed(bytes, targets);
    assert IsGraph(bytes, targets, g);
    hide After, Reachable, Balanced, RunsBalanced, Preds, IsGraph, GraphOf, WellFormed, Delta, Labels, ZeroAtExits,
         NoOrphans, LostAtZero,
         Leaves, Closed, Lost;
    forall p, i | 0 <= p < |g.prog| && Reachable(g, p) && Edge(g, p, i)
      ensures Delta(g.prog[p].op.mnemonic).Some?
    {
      assert OrdinaryAt(bytes, targets, g.prog, p);
      EdgesHaveDelta(bytes, targets, g, p, i);
    }
    labels := SettledLabels(g, n);
    SettledDepthIsLabelling(g, labels, n);
    OrdinaryKeepsS(bytes, targets, g);
    BalancedOnLabels(g, labels, n);
    RunsOnLabels(bytes, targets, g, labels);
  }
}
