/** Blocks on which the flow analysis, as written, reports too much or never finishes. */
module AsmLimits {
  import opened Wrappers
  import opened Isa
  import opened AsmGraph
  import opened AsmSweep
  import opened AsmFixpoint
  import opened AsmDepth
  import opened AsmStack
  import opened AsmBalance

  // ----- joins, said through edges -----

  lemma JoinAgrees(g: Graph, depth: seq<Option<int>>, i: nat, p: nat)
    requires WellFormed(g) && |depth| == |g.prog| && 0 < i < |g.prog| && p < |g.prog| && Edge(g, p, i)
    requires Candidate(g, depth, p).Some?
    requires forall q :: 0 <= q < |g.prog| && Edge(g, q, i) ==>
      Candidate(g, depth, q).None? || Candidate(g, depth, q) == Candidate(g, depth, p)
    ensures DepthAt(g, depth, i) == depth[i := Candidate(g, depth, p)]
  {
    hide Delta, Preds, Candidate;
    var ps := Preds(g, i);
    forall k | 0 <= k < |ps|
      ensures Edge(g, ps[k], i)
    {
      assert ps[k] in ps;
      PredsExact(g, i, ps[k]);
    }
    PredsExact(g, i, p);
    var k :| 0 <= k < |ps| && ps[k] == p;
    assert Agree(g, depth, ps, Some(Candidate(g, depth, p).value));
  }

  lemma JoinConflicts(g: Graph, depth: seq<Option<int>>, i: nat, p: nat, q: nat)
    requires WellFormed(g) && |depth| == |g.prog| && 0 < i < |g.prog| && p < |g.prog| && q < |g.prog|
      && Edge(g, p, i) && Edge(g, q, i)
    requires Candidate(g, depth, p).Some? && Candidate(g, depth, q).Some?
      && Candidate(g, depth, p) != Candidate(g, depth, q)
    ensures DepthAt(g, depth, i) == depth[i := None]
  {
    hide Delta, Candidate;
    var ps := Preds(g, i);
    PredsExact(g, i, p);
    PredsExact(g, i, q);
    hide Preds;
    var k :| 0 <= k < |ps| && ps[k] == p;
    var l :| 0 <= l < |ps| && ps[l] == q;
  }

  lemma JoinUnknown(g: Graph, depth: seq<Option<int>>, i: nat, p: nat)
    requires WellFormed(g) && |depth| == |g.prog| && 0 < i < |g.prog| && p < |g.prog| && Edge(g, p, i)
    requires forall q :: 0 <= q < |g.prog| && Edge(g, q, i) ==> Candidate(g, depth, q).None?
    ensures DepthAt(g, depth, i) == depth[i := None]
  {
    hide Delta, Candidate;
    var ps := Preds(g, i);
    PredsExact(g, i, p);
    forall k | 0 <= k < |ps|
      ensures Candidate(g, depth, ps[k]).None?
    {
      assert ps[k] in ps;
      PredsExact(g, i, ps[k]);
    }
  }

  lemma EntryKept(g: Graph, d: seq<Option<int>>)
    requires WellFormed(g) && |d| == |g.prog| && g.prog != [] && d[0] == Some(0)
    ensures DepthAt(g, d, 0) == d
  {
    hide Preds, Join;
  }

  /** Definitions always settle; a depth vector reached once and left alone by a sweep settles too. */
  lemma SettlesOn(g: Graph, depth: seq<Option<int>>, m: nat, n: nat)
    requires WellFormed(g) && |depth| == |g.prog| && After(g, m).depth == depth && DepthSweep(g, depth, 0) == depth
    requires n >= m && n >= 11 * |g.prog| + 1
    ensures After(g, n + 1) == After(g, n) && After(g, n).depth == depth
  {
    hide DefsSweep, Initial;
    DefsSettle(g, n);
    assert After(g, m + 1).depth == depth;
    DepthStays(g, m, n);
    DepthStays(g, m, n + 1);
  }

  lemma StackOpcodes()
    ensures Decode(0x48) == Some(Op(PHA, Implied)) && Decode(0x68) == Some(Op(PLA, Implied))
      && Decode(0x60) == Some(Op(RTS, Implied))
  {
    hide Rows00, Rows20, Rows80, RowsA0, RowsC0, RowsE0, Sensible;
  }

  lemma BranchOpcodes()
    ensures Decode(0xEA) == Some(Op(NOP, Implied)) && Decode(0xD0) == Some(Op(BNE, Relative))
    ensures Decode(0xF0) == Some(Op(BEQ, Relative)) && Decode(0xB0) == Some(Op(BCS, Relative))
  {
    hide Rows00, Rows20, Rows40, Rows60, Rows80, Sensible;
  }

  /** The opcodes of the examples. */
  lemma Opcodes()
    ensures Decode(0x48) == Some(Op(PHA, Implied)) && Decode(0x68) == Some(Op(PLA, Implied))
      && Decode(0x60) == Some(Op(RTS, Implied))
    ensures Decode(0xEA) == Some(Op(NOP, Implied)) && Decode(0xD0) == Some(Op(BNE, Relative))
    ensures Decode(0xF0) == Some(Op(BEQ, Relative)) && Decode(0xB0) == Some(Op(BCS, Relative))
  {
    hide Decode;
    StackOpcodes();
    BranchOpcodes();
  }

  /** Enough to know a block's graph: its tiling, and the edges and exits of each instruction. */
  lemma GraphIs(bytes: seq<byte>, g: Graph)
    requires |g.prog| == |g.succs| == |g.exits| && Tiles(bytes, 0, |bytes|, g.prog)
    requires forall i :: 0 <= i < |g.prog| ==>
      g.succs[i] == Successors(bytes, map[], g.prog, i) && g.exits[i] == IsExit(map[], g.prog, i)
    ensures GraphOf(bytes, map[]) == Some(g) && WellFormed(g)
  {
    hide Decode, Sensible, Successors, IsExit;
    TilesDecode(bytes, 0, g.prog);
    assert GraphOf(bytes, map[]).value.succs == g.succs;
    assert GraphOf(bytes, map[]).value.exits == g.exits;
    hide Tiles;
    GraphWellFormed(bytes, map[]);
  }

  lemma MayImplied(bytes: seq<byte>, pc: nat, m: Mnemonic, depth: int)
    requires pc < |bytes| && Decode(bytes[pc]) == Some(Op(m, Implied)) && m != JMP
    ensures May(bytes, map[], pc, depth,
                if Returns(m) then Leave(depth)
                else To(bytes, pc + 1, if m in {PHA, PHP} then depth - 1 else if m in {PLA, PLP} then depth + 1 else depth))
  {
    hide Decode, Sensible;
  }

  lemma MayRelative(bytes: seq<byte>, pc: nat, m: Mnemonic, depth: int)
    requires pc + 1 < |bytes| && Decode(bytes[pc]) == Some(Op(m, Relative))
    ensures May(bytes, map[], pc, depth, To(bytes, pc + 2, depth))
    ensures May(bytes, map[], pc, depth, To(bytes, BranchTarget(bytes, Ins(pc, Op(m, Relative))), depth))
  {
    hide Decode, Sensible;
  }

  // ----- the entry's depth is pinned and edges back to it are not checked -----

  ghost predicate At(g: Graph, i: nat, ins: Ins, next: seq<nat>, exit: bool) {
    i < |g.prog| == |g.succs| == |g.exits| && g.prog[i] == ins && g.succs[i] == next && g.exits[i] == exit
  }

  /** loop: PHA / BNE loop / PLA / RTS */
  ghost predicate EntryLoop(g: Graph) {
    && |g.prog| == 4
    && At(g, 0, Ins(0, Op(PHA, Implied)), [1], false)
    && At(g, 1, Ins(1, Op(BNE, Relative)), [2, 0], false)
    && At(g, 2, Ins(3, Op(PLA, Implied)), [3], false)
    && At(g, 3, Ins(4, Op(RTS, Implied)), [], true)
  }

  lemma EntryLoopTiles(bytes: seq<byte>, g: Graph)
    requires bytes == [0x48, 0xD0, 0xFD, 0x68, 0x60] && EntryLoop(g)
    ensures Tiles(bytes, 0, 5, g.prog)
  {
    hide Decode, Sensible;
    Opcodes();
  }

  lemma EntryLoopGraph(bytes: seq<byte>, g: Graph)
    requires bytes == [0x48, 0xD0, 0xFD, 0x68, 0x60] && EntryLoop(g)
    ensures GraphOf(bytes, map[]) == Some(g) && WellFormed(g)
  {
    hide Decode, Sensible, Tiles, GraphOf, WellFormed;
    EntryLoopTiles(bytes, g);
    IndexUnique(bytes, g.prog, 0);
    forall i | 0 <= i < |g.prog|
      ensures g.succs[i] == Successors(bytes, map[], g.prog, i) && g.exits[i] == IsExit(map[], g.prog, i)
    {
      hide IndexOf;
      if i == 0 {} else if i == 1 {} else if i == 2 {} else {}
    }
    GraphIs(bytes, g);
  }

  lemma FourCells(d: seq<Option<int>>, a: Option<int>, b: Option<int>, c: Option<int>)
    requires |d| == 4
    ensures d[1 := a][2 := b][3 := c] == [d[0], a, b, c]
  {
  }

  lemma SweepFour(g: Graph, d: seq<Option<int>>, d1: seq<Option<int>>, d2: seq<Option<int>>, d3: seq<Option<int>>)
    requires WellFormed(g) && |g.prog| == |d| == |d1| == |d2| == |d3| == 4
    requires DepthAt(g, d, 0) == d && DepthAt(g, d, 1) == d1 && DepthAt(g, d1, 2) == d2 && DepthAt(g, d2, 3) == d3
    ensures DepthSweep(g, d, 0) == d3
  {
    hide DepthAt, WellFormed;
    assert DepthSweep(g, d3, 4) == d3;
    assert DepthSweep(g, d2, 3) == d3;
    assert DepthSweep(g, d1, 2) == d3;
    assert DepthSweep(g, d, 1) == d3;
  }

  lemma EntryLoopReached(g: Graph)
    requires WellFormed(g) && EntryLoop(g)
    ensures forall i :: 0 <= i < 4 ==> Reachable(g, i)
  {
    hide WellFormed, Reachable;
    ReachEntry(g);
    ReachStep(g, 0, 1);
    ReachStep(g, 1, 2);
    ReachStep(g, 2, 3);
  }

  lemma ReachedNoOrphans(g: Graph)
    requires WellFormed(g) && forall i :: 0 <= i < |g.prog| ==> Reachable(g, i)
    ensures NoOrphans(g)
  {
    hide Reachable, Preds;
  }

  lemma PlainOrdinary(bytes: seq<byte>, prog: seq<Ins>, i: nat)
    requires i < |prog| && prog[i].op.mode != Relative && prog[i].op.mnemonic != JMP && prog[i].op.mnemonic != TXS
    ensures OrdinaryAt(bytes, map[], prog, i)
  {
  }

  lemma EntryLoopOrdinary(bytes: seq<byte>, g: Graph)
    requires bytes == [0x48, 0xD0, 0xFD, 0x68, 0x60] && EntryLoop(g) && WellFormed(g)
    ensures Ordinary(bytes, map[], g)
  {
    hide Reachable, WellFormed;
    var r := IndexOf(g.prog, 0);
    hide IndexOf;
    forall i | 0 <= i < 4 && i != 1 ensures OrdinaryAt(bytes, map[], g.prog, i) { PlainOrdinary(bytes, g.prog, i); }
    assert BranchTarget(bytes, g.prog[1]) == 0;
  }

  lemma EntryLoopLabels(g: Graph)
    requires EntryLoop(g) && WellFormed(g)
    ensures Labels(g, [0, -1, -1, 0]) && ZeroAtExits(g, [0, -1, -1, 0])
  {
    hide Reachable, WellFormed;
  }

  lemma EntryLoopOpen(bytes: seq<byte>, g: Graph)
    requires EntryLoop(g) && WellFormed(g)
    ensures Leaves(bytes, g) && NoOrphans(g) && !Closed(g, [0, -1, -1, 0])
  {
    hide Reachable, NoOrphans, Lost, WellFormed;
    EntryLoopReached(g);
    ReachedNoOrphans(g);
    assert Out(bytes, g, 3) && Edge(g, 1, 0);
  }

  /** A run may push twice and pull once, but the report says balanced: the loop does not come back at depth zero. */
  lemma EntryLoopMisreported(bytes: seq<byte>, g: Graph, n: nat)
    requires bytes == [0x48, 0xD0, 0xFD, 0x68, 0x60] && EntryLoop(g) && n >= 45
    ensures GraphOf(bytes, map[]) == Some(g) && WellFormed(g)
    ensures Ordinary(bytes, map[], g) && Labels(g, [0, -1, -1, 0]) && Leaves(bytes, g) && !Closed(g, [0, -1, -1, 0])
    ensures After(g, n + 1) == After(g, n) && Balanced(g, After(g, n))
    ensures !RunsBalanced(bytes, map[])
  {
    EntryLoopGraph(bytes, g);
    hide After, GraphOf, WellFormed, Balanced, RunsBalanced, Ordinary, Labels, ZeroAtExits, NoOrphans, LostAtZero,
         Leaves, Closed,
         Lost;
    EntryLoopOrdinary(bytes, g);
    EntryLoopLabels(g);
    EntryLoopOpen(bytes, g);
    LabelledReportIsExact(bytes, map[], g, [0, -1, -1, 0], n);
  }

  lemma RunStart(bytes: seq<byte>) returns (run: seq<(nat, int)>)
    ensures IsRun(bytes, map[], run) && run != [] && run[|run| - 1] == (0, 0)
  {
    hide May;
    run := [(0, 0)];
  }

  lemma RunMore(bytes: seq<byte>, run: seq<(nat, int)>, at: (nat, int)) returns (longer: seq<(nat, int)>)
    requires IsRun(bytes, map[], run) && run != []
    requires May(bytes, map[], run[|run| - 1].0, run[|run| - 1].1, Goto(at.0, at.1))
    ensures IsRun(bytes, map[], longer) && longer != [] && longer[|longer| - 1] == at
  {
    hide May, IsRun;
    ExtendRun(bytes, map[], run, at);
    longer := run + [at];
  }

  function DepthAfter(m: Mnemonic, depth: int): int {
    if m.PHA? || m.PHP? then depth - 1 else if m.PLA? || m.PLP? then depth + 1 else depth
  }

  /** On to the next instruction. */
  lemma RunImplied(bytes: seq<byte>, run: seq<(nat, int)>, m: Mnemonic) returns (longer: seq<(nat, int)>)
    requires IsRun(bytes, map[], run) && run != []
    requires var pc := run[|run| - 1].0;
      pc + 1 < |bytes| && Decode(bytes[pc]) == Some(Op(m, Implied)) && m != JMP && !Returns(m)
    ensures IsRun(bytes, map[], longer) && longer != []
    ensures longer[|longer| - 1] == (run[|run| - 1].0 + 1, DepthAfter(m, run[|run| - 1].1))
  {
    hide Decode, May, IsRun, Sensible;
    var pc, depth := run[|run| - 1].0, run[|run| - 1].1;
    MayImplied(bytes, pc, m, depth);
    longer := RunMore(bytes, run, (pc + 1, DepthAfter(m, depth)));
  }

  /** One of the two ways of a branch. */
  lemma RunBranch(bytes: seq<byte>, run: seq<(nat, int)>, m: Mnemonic, pc: nat) returns (longer: seq<(nat, int)>)
    requires IsRun(bytes, map[], run) && run != []
    requires var at := run[|run| - 1].0;
      && at + 1 < |bytes| && Decode(bytes[at]) == Some(Op(m, Relative)) && pc < |bytes|
      && (pc == at + 2 || pc == BranchTarget(bytes, Ins(at, Op(m, Relative))))
    ensures IsRun(bytes, map[], longer) && longer != [] && longer[|longer| - 1] == (pc, run[|run| - 1].1)
  {
    hide Decode, May, IsRun, BranchTarget, Sensible;
    MayRelative(bytes, run[|run| - 1].0, m, run[|run| - 1].1);
    longer := RunMore(bytes, run, (pc, run[|run| - 1].1));
  }

  lemma RunReturns(bytes: seq<byte>, run: seq<(nat, int)>, m: Mnemonic)
    requires IsRun(bytes, map[], run) && run != [] && Returns(m)
    requires var pc := run[|run| - 1].0; pc < |bytes| && Decode(bytes[pc]) == Some(Op(m, Implied))
    ensures LeavesAt(bytes, map[], run, run[|run| - 1].1)
  {
    hide Decode, May, IsRun, Sensible;
    MayImplied(bytes, run[|run| - 1].0, m, run[|run| - 1].1);
  }

  lemma Unbalanced(bytes: seq<byte>, run: seq<(nat, int)>, d: int)
    requires LeavesAt(bytes, map[], run, d) && d != 0
    ensures !RunsBalanced(bytes, map[])
  {
    hide LeavesAt;
  }

  // ----- a conflict at a join counts as no depth, and is skipped at the next join -----

  /** BCS L2 / BEQ L1 / PHA / L1: NOP / L2: RTS */
  ghost predicate Conflict(g: Graph) {
    && |g.prog| == 5
    && At(g, 0, Ins(0, Op(BCS, Relative)), [1, 4], false)
    && At(g, 1, Ins(2, Op(BEQ, Relative)), [2, 3], false)
    && At(g, 2, Ins(4, Op(PHA, Implied)), [3], false)
    && At(g, 3, Ins(5, Op(NOP, Implied)), [4], false)
    && At(g, 4, Ins(6, Op(RTS, Implied)), [], true)
  }

  lemma ConflictTiles(bytes: seq<byte>, g: Graph)
    requires bytes == [0xB0, 4, 0xF0, 1, 0x48, 0xEA, 0x60] && Conflict(g)
    ensures Tiles(bytes, 0, 7, g.prog)
  {
    hide Decode, Sensible;
    Opcodes();
  }

  lemma ConflictBranches(bytes: seq<byte>, g: Graph)
    requires bytes == [0xB0, 4, 0xF0, 1, 0x48, 0xEA, 0x60] && Conflict(g)
    requires IndexOf(g.prog, 5) == Some(3) && IndexOf(g.prog, 6) == Some(4)
    ensures g.succs[0] == Successors(bytes, map[], g.prog, 0) && g.succs[1] == Successors(bytes, map[], g.prog, 1)
  {
    hide IndexOf;
  }

  lemma ConflictGraph(bytes: seq<byte>, g: Graph)
    requires bytes == [0xB0, 4, 0xF0, 1, 0x48, 0xEA, 0x60] && Conflict(g)
    ensures GraphOf(bytes, map[]) == Some(g) && WellFormed(g)
  {
    hide Decode, Sensible, Tiles, GraphOf, WellFormed, IndexOf;
    ConflictTiles(bytes, g);
    IndexUnique(bytes, g.prog, 3);
    IndexUnique(bytes, g.prog, 4);
    ConflictBranches(bytes, g);
    forall i | 0 <= i < |g.prog|
      ensures g.succs[i] == Successors(bytes, map[], g.prog, i) && g.exits[i] == IsExit(map[], g.prog, i)
    {
      if i >= 2 { ConflictPlain(bytes, g, i); }
    }
    GraphIs(bytes, g);
  }

  lemma ConflictPlain(bytes: seq<byte>, g: Graph, i: nat)
    requires |bytes| == 7 && Conflict(g) && 2 <= i < |g.prog|
    ensures g.succs[i] == Successors(bytes, map[], g.prog, i) && g.exits[i] == IsExit(map[], g.prog, i)
  {
    hide IndexOf;
  }

  lemma ConflictChain(g: Graph, d: seq<Option<int>>, i: nat)
    requires WellFormed(g) && Conflict(g) && |d| == 5 && 0 < i < 3 && d[i - 1].Some?
    ensures DepthAt(g, d, i) == d[i := d[i - 1]]
  {
    hide WellFormed, DepthAt;
    assert Edge(g, i - 1, i) && forall q :: 0 <= q < 5 && Edge(g, q, i) ==> q == i - 1;
    JoinAgrees(g, d, i, i - 1);
  }

  lemma ConflictJoins(g: Graph, d: seq<Option<int>>)
    requires WellFormed(g) && Conflict(g) && |d| == 5 && d[0] == d[1] == d[2] == Some(0)
    ensures DepthAt(g, d, 3) == d[3 := None]
    ensures d[3].None? ==> DepthAt(g, d, 4) == d[4 := Some(0)]
  {
    hide WellFormed, DepthAt;
    assert Edge(g, 1, 3) && Edge(g, 2, 3);
    JoinConflicts(g, d, 3, 1, 2);
    assert Edge(g, 0, 4) && forall q :: 0 <= q < 5 && Edge(g, q, 4) ==> q == 0 || q == 3;
    if d[3].None? { JoinAgrees(g, d, 4, 0); }
  }

  lemma ConflictPass(g: Graph, d: seq<Option<int>>)
    requires WellFormed(g) && Conflict(g) && |g.prog| == 5 && |d| == 5 && d[0] == Some(0)
    ensures DepthSweep(g, d, 0) == [Some(0), Some(0), Some(0), None, Some(0)]
  {
    hide Conflict;
    EntryKept(g, d);
    hide DepthAt, WellFormed, DepthSweep;
    ConflictChain(g, d, 1);
    var d1 := d[1 := Some(0)];
    ConflictChain(g, d1, 2);
    var d2 := d1[2 := Some(0)];
    ConflictJoins(g, d2);
    var d3 := d2[3 := None];
    ConflictJoins(g, d3);
    SweepFive(g, d, d1, d2, d3, d3[4 := Some(0)]);
    FiveCells(d, Some(0), Some(0), None, Some(0));
  }

  lemma FiveCells(d: seq<Option<int>>, a: Option<int>, b: Option<int>, c: Option<int>, e: Option<int>)
    requires |d| == 5
    ensures d[1 := a][2 := b][3 := c][4 := e] == [d[0], a, b, c, e]
  {
  }

  lemma SweepFive(g: Graph, d: seq<Option<int>>, d1: seq<Option<int>>, d2: seq<Option<int>>, d3: seq<Option<int>>,
      d4: seq<Option<int>>)
    requires WellFormed(g) && |g.prog| == |d| == |d1| == |d2| == |d3| == |d4| == 5
    requires DepthAt(g, d, 0) == d && DepthAt(g, d, 1) == d1 && DepthAt(g, d1, 2) == d2 && DepthAt(g, d2, 3) == d3
        && DepthAt(g, d3, 4) == d4
    ensures DepthSweep(g, d, 0) == d4
  {
    hide DepthAt, WellFormed;
    assert DepthSweep(g, d4, 5) == d4;
    assert DepthSweep(g, d3, 4) == d4;
    assert DepthSweep(g, d2, 3) == d4;
    assert DepthSweep(g, d1, 2) == d4;
    assert DepthSweep(g, d, 1) == d4;
  }

  lemma ConflictDepth(g: Graph, n: nat)
    requires n >= 56 && WellFormed(g) && Conflict(g)
    ensures After(g, n + 1) == After(g, n) && After(g, n).depth == [Some(0), Some(0), Some(0), None, Some(0)]
  {
    hide DepthAt, WellFormed;
    var d := [Some(0), Some(0), Some(0), None, Some(0)];
    ConflictPass(g, Initial(g).depth);
    ConflictPass(g, d);
    assert After(g, 1).depth == d;
    SettlesOn(g, d, 1, n);
  }

  lemma ConflictRun(bytes: seq<byte>)
    requires bytes == [0xB0, 4, 0xF0, 1, 0x48, 0xEA, 0x60]
    ensures !RunsBalanced(bytes, map[])
  {
    hide Decode, RunsBalanced, Sensible, May;
    Opcodes();
    ConflictPath(bytes);
  }

  lemma ConflictPath(bytes: seq<byte>)
    requires |bytes| == 7 && Decode(bytes[0]) == Some(Op(BCS, Relative)) && Decode(bytes[2]) == Some(Op(BEQ, Relative))
    requires Decode(bytes[4]) == Some(Op(PHA, Implied)) && Decode(bytes[5]) == Some(Op(NOP, Implied))
    requires Decode(bytes[6]) == Some(Op(RTS, Implied))
    ensures !RunsBalanced(bytes, map[])
  {
    hide Decode, RunsBalanced, IsRun, LeavesAt, BranchTarget, Sensible;
    var run := RunStart(bytes);
    run := RunBranch(bytes, run, BCS, 2);
    run := RunBranch(bytes, run, BEQ, 4);
    run := RunImplied(bytes, run, PHA);
    run := RunImplied(bytes, run, NOP);
    RunReturns(bytes, run, RTS);
    Unbalanced(bytes, run, -1);
  }

  lemma ConflictUnlabelled(g: Graph, labels: seq<int>)
    requires WellFormed(g) && Conflict(g) && |labels| == 5
    ensures !Labels(g, labels)
  {
    hide WellFormed, Reachable;
    ReachEntry(g);
    ReachStep(g, 0, 1);
    ReachStep(g, 1, 2);
    assert !(Consistent(g, labels, 1, 2) && Consistent(g, labels, 1, 3) && Consistent(g, labels, 2, 3));
  }

  /** Two ways into L1 disagree, so L1 has no depth, and L2 believes its other predecessor. */
  lemma ConflictMisreported(bytes: seq<byte>, g: Graph, n: nat)
    requires bytes == [0xB0, 4, 0xF0, 1, 0x48, 0xEA, 0x60] && Conflict(g) && n >= 56
    ensures GraphOf(bytes, map[]) == Some(g) && WellFormed(g) && forall labels :: |labels| == 5 ==> !Labels(g, labels)
    ensures After(g, n + 1) == After(g, n) && Balanced(g, After(g, n))
    ensures !RunsBalanced(bytes, map[])
  {
    hide After, Decode, GraphOf, WellFormed, Labels;
    ConflictGraph(bytes, g);
    forall labels: seq<int> | |labels| == 5 ensures !Labels(g, labels) { ConflictUnlabelled(g, labels); }
    ConflictDepth(g, n);
    ConflictRun(bytes);
  }

  // ----- a branch to the end of the block is neither an edge nor an exit -----

  /** PHA / BEQ done / PLA / done: */
  ghost predicate LostBranch(g: Graph) {
    && |g.prog| == 3
    && At(g, 0, Ins(0, Op(PHA, Implied)), [1], false)
    && At(g, 1, Ins(1, Op(BEQ, Relative)), [2], false)
    && At(g, 2, Ins(3, Op(PLA, Implied)), [], true)
  }

  lemma LostBranchTiles(bytes: seq<byte>, g: Graph)
    requires bytes == [0x48, 0xF0, 1, 0x68] && LostBranch(g)
    ensures Tiles(bytes, 0, 4, g.prog)
  {
    hide Decode, Sensible;
    Opcodes();
  }

  lemma LostBranchGraph(bytes: seq<byte>, g: Graph)
    requires bytes == [0x48, 0xF0, 1, 0x68] && LostBranch(g)
    ensures GraphOf(bytes, map[]) == Some(g) && WellFormed(g)
  {
    hide Decode, Sensible, Tiles, GraphOf, WellFormed;
    LostBranchTiles(bytes, g);
    forall i | 0 <= i < |g.prog|
      ensures g.succs[i] == Successors(bytes, map[], g.prog, i) && g.exits[i] == IsExit(map[], g.prog, i)
    {
      hide IndexOf;
      if i == 0 {} else if i == 1 {} else {}
    }
    GraphIs(bytes, g);
  }

  lemma LostBranchOrdinary(bytes: seq<byte>, g: Graph)
    requires bytes == [0x48, 0xF0, 1, 0x68] && LostBranch(g) && WellFormed(g)
    ensures Ordinary(bytes, map[], g) && Lost(bytes, g.prog, 1)
  {
    hide Reachable, WellFormed, IndexOf;
    forall i | 0 <= i < 3 && i != 1 ensures OrdinaryAt(bytes, map[], g.prog, i) { PlainOrdinary(bytes, g.prog, i); }
    assert BranchTarget(bytes, g.prog[1]) == 4;
  }

  lemma LostBranchLabels(g: Graph)
    requires LostBranch(g) && WellFormed(g)
    ensures Labels(g, [0, -1, -1]) && ZeroAtExits(g, [0, -1, -1])
  {
    hide Reachable, WellFormed;
  }

  lemma LostBranchOpen(bytes: seq<byte>, g: Graph)
    requires LostBranch(g) && WellFormed(g) && Lost(bytes, g.prog, 1)
    ensures NoOrphans(g) && !LostAtZero(bytes, g, [0, -1, -1])
  {
    hide Reachable, WellFormed, NoOrphans, Lost;
    ReachEntry(g);
    ReachStep(g, 0, 1);
    ReachStep(g, 1, 2);
    ReachedNoOrphans(g);
  }

  /** Taking the branch leaves one byte on the stack, but the report says balanced: it leaves the block at depth -1. */
  lemma LostBranchMisreported(bytes: seq<byte>, g: Graph, n: nat)
    requires bytes == [0x48, 0xF0, 1, 0x68] && LostBranch(g) && n >= 34
    ensures GraphOf(bytes, map[]) == Some(g) && WellFormed(g)
    ensures Ordinary(bytes, map[], g) && Labels(g, [0, -1, -1]) && !LostAtZero(bytes, g, [0, -1, -1])
    ensures After(g, n + 1) == After(g, n) && Balanced(g, After(g, n))
    ensures !RunsBalanced(bytes, map[])
  {
    LostBranchGraph(bytes, g);
    hide After, GraphOf, WellFormed, Balanced, RunsBalanced, Ordinary, Labels, ZeroAtExits, NoOrphans, LostAtZero,
         Leaves, Closed,
         Lost;
    LostBranchOrdinary(bytes, g);
    LostBranchLabels(g);
    LostBranchOpen(bytes, g);
    LabelledReportIsExact(bytes, map[], g, [0, -1, -1], n);
  }

  // ----- a branch into an operand runs code that is not in the graph -----

  /** BCS into the operand / LDA #$48 / RTS */
  ghost predicate OperandBranch(g: Graph) {
    && |g.prog| == 3
    && At(g, 0, Ins(0, Op(BCS, Relative)), [1], false)
    && At(g, 1, Ins(2, Op(LDA, Immediate)), [2], false)
    && At(g, 2, Ins(4, Op(RTS, Implied)), [], true)
  }

  lemma OperandOpcode()
    ensures Decode(0xA9) == Some(Op(LDA, Immediate))
  {
  }

  lemma OperandBranchTiles(bytes: seq<byte>, g: Graph)
    requires bytes == [0xB0, 1, 0xA9, 0x48, 0x60] && OperandBranch(g)
    ensures Tiles(bytes, 0, 5, g.prog)
  {
    hide Decode, Sensible;
    Opcodes();
    OperandOpcode();
  }

  lemma OperandBranchGraph(bytes: seq<byte>, g: Graph)
    requires bytes == [0xB0, 1, 0xA9, 0x48, 0x60] && OperandBranch(g)
    ensures GraphOf(bytes, map[]) == Some(g) && WellFormed(g)
  {
    hide Decode, Sensible, Tiles, GraphOf, WellFormed;
    OperandBranchTiles(bytes, g);
    forall i | 0 <= i < |g.prog|
      ensures g.succs[i] == Successors(bytes, map[], g.prog, i) && g.exits[i] == IsExit(map[], g.prog, i)
    {
      hide IndexOf;
      if i == 0 {} else if i == 1 {} else {}
    }
    GraphIs(bytes, g);
  }

  lemma OperandBranchIrregular(bytes: seq<byte>, g: Graph)
    requires bytes == [0xB0, 1, 0xA9, 0x48, 0x60] && OperandBranch(g) && WellFormed(g)
    ensures !Ordinary(bytes, map[], g)
  {
    hide Reachable, WellFormed;
    ReachEntry(g);
    assert BranchTarget(bytes, g.prog[0]) == 3 && IndexOf(g.prog, 3).None?;
    assert !OrdinaryAt(bytes, map[], g.prog, 0);
  }

  lemma OperandBranchLabels(g: Graph)
    requires OperandBranch(g) && WellFormed(g)
    ensures Labels(g, [0, 0, 0]) && ZeroAtExits(g, [0, 0, 0])
  {
    hide Reachable, WellFormed;
  }

  lemma OperandBranchKeepsS(g: Graph)
    requires OperandBranch(g) && WellFormed(g)
    ensures KeepsS(g)
  {
    hide Reachable, WellFormed;
  }

  lemma OperandBranchOpen(g: Graph)
    requires OperandBranch(g) && WellFormed(g)
    ensures NoOrphans(g)
  {
    hide Reachable, WellFormed, NoOrphans;
    ReachEntry(g);
    ReachStep(g, 0, 1);
    ReachStep(g, 1, 2);
    ReachedNoOrphans(g);
  }

  lemma OperandBranchRun(bytes: seq<byte>)
    requires bytes == [0xB0, 1, 0xA9, 0x48, 0x60]
    ensures !RunsBalanced(bytes, map[])
  {
    hide Decode, RunsBalanced, Sensible;
    Opcodes();
    OperandBranchPath(bytes);
  }

  lemma OperandBranchPath(bytes: seq<byte>)
    requires |bytes| == 5 && Decode(bytes[0]) == Some(Op(BCS, Relative)) && Decode(bytes[3]) == Some(Op(PHA, Implied))
    requires Decode(bytes[4]) == Some(Op(RTS, Implied)) && BranchTarget(bytes, Ins(0, Op(BCS, Relative))) == 3
    ensures !RunsBalanced(bytes, map[])
  {
    hide Decode, RunsBalanced, IsRun, LeavesAt, BranchTarget, Sensible;
    var run := RunStart(bytes);
    run := RunBranch(bytes, run, BCS, 3);
    run := RunImplied(bytes, run, PHA);
    RunReturns(bytes, run, RTS);
    Unbalanced(bytes, run, -1);
  }

  /** The operand is run as PHA, but the report says balanced. */
  lemma OperandBranchMisreported(bytes: seq<byte>, g: Graph, n: nat)
    requires bytes == [0xB0, 1, 0xA9, 0x48, 0x60] && OperandBranch(g) && n >= 34
    ensures GraphOf(bytes, map[]) == Some(g) && WellFormed(g) && Labels(g, [0, 0, 0]) && !Ordinary(bytes, map[], g)
    ensures After(g, n + 1) == After(g, n) && Balanced(g, After(g, n))
    ensures !RunsBalanced(bytes, map[])
  {
    OperandBranchGraph(bytes, g);
    hide After, GraphOf, WellFormed, Balanced, RunsBalanced, Ordinary, Labels, ZeroAtExits, NoOrphans, KeepsS;
    OperandBranchIrregular(bytes, g);
    OperandBranchLabels(g);
    OperandBranchKeepsS(g);
    OperandBranchOpen(g);
    SweepsSettle(g, [0, 0, 0], n);
    BalancedOnLabels(g, [0, 0, 0], n);
    OperandBranchRun(bytes);
  }

  // ----- an exit that only unreachable code leads to is counted, but has no depth -----

  /** RTS / NOP / RTS */
  ghost predicate Orphaned(g: Graph) {
    && |g.prog| == 3
    && At(g, 0, Ins(0, Op(RTS, Implied)), [], true)
    && At(g, 1, Ins(1, Op(NOP, Implied)), [2], false)
    && At(g, 2, Ins(2, Op(RTS, Implied)), [], true)
  }

  lemma OrphanedTiles(bytes: seq<byte>, g: Graph)
    requires bytes == [0x60, 0xEA, 0x60] && Orphaned(g)
    ensures Tiles(bytes, 0, 3, g.prog)
  {
    hide Decode, Sensible;
    Opcodes();
  }

  lemma OrphanedGraph(bytes: seq<byte>, g: Graph)
    requires bytes == [0x60, 0xEA, 0x60] && Orphaned(g)
    ensures GraphOf(bytes, map[]) == Some(g) && WellFormed(g)
  {
    hide Decode, Sensible, Tiles, GraphOf, WellFormed;
    OrphanedTiles(bytes, g);
    forall i | 0 <= i < |g.prog|
      ensures g.succs[i] == Successors(bytes, map[], g.prog, i) && g.exits[i] == IsExit(map[], g.prog, i)
    {
      hide IndexOf;
      if i == 0 {} else if i == 1 {} else {}
    }
    GraphIs(bytes, g);
  }

  lemma OnlyEntryReached(g: Graph, i: nat)
    requires WellFormed(g) && Orphaned(g) && Reachable(g, i)
    ensures i == 0
  {
    var path := PathTo(g, i);
    assert |path| > 1 ==> Edge(g, path[0], path[1]);
  }

  lemma OrphanedFacts(bytes: seq<byte>, g: Graph)
    requires WellFormed(g) && Orphaned(g)
    ensures Ordinary(bytes, map[], g) && BalancedLabels(bytes, g, [0, 0, 0]) && OrphanExit(g, 2)
  {
    hide Reachable;
    forall i | Reachable(g, i) ensures i == 0 { OnlyEntryReached(g, i); }
    assert Edge(g, 1, 2);
    PredsExact(g, 2, 1);
    hide Preds;
  }

  /** No run is unbalanced, but the report says so. */
  lemma OrphanAlarm(bytes: seq<byte>, g: Graph, n: nat)
    requires bytes == [0x60, 0xEA, 0x60] && Orphaned(g) && n >= 34
    ensures GraphOf(bytes, map[]) == Some(g) && WellFormed(g) && !NoOrphans(g)
    ensures After(g, n + 1) == After(g, n) && !Balanced(g, After(g, n))
    ensures RunsBalanced(bytes, map[])
  {
    OrphanedGraph(bytes, g);
    hide After, GraphOf, Balanced, RunsBalanced, Ordinary, Labels, ZeroAtExits, LostAtZero, Leaves, Closed, OrphanExit;
    OrphanedFacts(bytes, g);
    LabelledReportIsExact(bytes, map[], g, [0, 0, 0], n);
    RunsOnLabels(bytes, map[], g, [0, 0, 0]);
  }

  // ----- a loop that changes the depth makes the sweeps alternate for ever -----

  /** NOP / loop: PHA / BNE loop / RTS */
  ghost predicate GrowingLoop(g: Graph) {
    && |g.prog| == 4
    && At(g, 0, Ins(0, Op(NOP, Implied)), [1], false)
    && At(g, 1, Ins(1, Op(PHA, Implied)), [2], false)
    && At(g, 2, Ins(2, Op(BNE, Relative)), [3, 1], false)
    && At(g, 3, Ins(4, Op(RTS, Implied)), [], true)
  }

  lemma GrowingLoopTiles(bytes: seq<byte>, g: Graph)
    requires bytes == [0xEA, 0x48, 0xD0, 0xFD, 0x60] && GrowingLoop(g)
    ensures Tiles(bytes, 0, 5, g.prog)
  {
    hide Decode, Sensible;
    Opcodes();
  }

  lemma GrowingLoopGraph(bytes: seq<byte>, g: Graph)
    requires bytes == [0xEA, 0x48, 0xD0, 0xFD, 0x60] && GrowingLoop(g)
    ensures GraphOf(bytes, map[]) == Some(g) && WellFormed(g)
  {
    hide Decode, Sensible, Tiles, GraphOf, WellFormed;
    GrowingLoopTiles(bytes, g);
    IndexUnique(bytes, g.prog, 1);
    forall i | 0 <= i < |g.prog|
      ensures g.succs[i] == Successors(bytes, map[], g.prog, i) && g.exits[i] == IsExit(map[], g.prog, i)
    {
      hide IndexOf;
      if i == 0 {} else if i == 1 {} else if i == 2 {} else {}
    }
    GraphIs(bytes, g);
  }

  lemma GrowingEntry(g: Graph, d: seq<Option<int>>)
    requires WellFormed(g) && GrowingLoop(g) && |d| == 4 && d[0] == Some(0) && (d[2] == None || d[2] == Some(-1))
    ensures DepthAt(g, d, 1) == d[1 := if d[2].None? then Some(0) else None]
  {
    hide WellFormed, DepthAt;
    assert Edge(g, 0, 1) && Edge(g, 2, 1) && forall q :: 0 <= q < 4 && Edge(g, q, 1) ==> q == 0 || q == 2;
    if d[2].None? { JoinAgrees(g, d, 1, 0); } else { JoinConflicts(g, d, 1, 0, 2); }
  }

  lemma GrowingChain(g: Graph, d: seq<Option<int>>, i: nat)
    requires WellFormed(g) && GrowingLoop(g) && |d| == 4 && 2 <= i < 4
    ensures DepthAt(g, d, i) == d[i := if d[i - 1].None? then None else Some(d[i - 1].value + if i == 2 then -1 else 0)]
  {
    hide WellFormed, DepthAt;
    assert Edge(g, i - 1, i) && forall q :: 0 <= q < 4 && Edge(g, q, i) ==> q == i - 1;
    if d[i - 1].None? { JoinUnknown(g, d, i, i - 1); } else { JoinAgrees(g, d, i, i - 1); }
  }

  function GrowingState(odd: bool): seq<Option<int>> {
    if odd then [Some(0), Some(0), Some(-1), Some(-1)] else [Some(0), None, None, None]
  }

  lemma GrowingRise(g: Graph, d: seq<Option<int>>)
    requires WellFormed(g) && GrowingLoop(g) && |g.prog| == |d| == 4 && d[0] == Some(0) && d[2].None?
    ensures DepthSweep(g, d, 0) == [Some(0), Some(0), Some(-1), Some(-1)]
  {
    hide GrowingLoop;
    EntryKept(g, d);
    hide DepthAt, WellFormed, DepthSweep;
    GrowingEntry(g, d);
    var d1 := d[1 := Some(0)];
    GrowingChain(g, d1, 2);
    var d2 := d1[2 := Some(-1)];
    GrowingChain(g, d2, 3);
    SweepFour(g, d, d1, d2, d2[3 := Some(-1)]);
    FourCells(d, Some(0), Some(-1), Some(-1));
  }

  lemma GrowingFall(g: Graph, d: seq<Option<int>>)
    requires WellFormed(g) && GrowingLoop(g) && |g.prog| == |d| == 4 && d[0] == Some(0) && d[2] == Some(-1)
    ensures DepthSweep(g, d, 0) == [Some(0), None, None, None]
  {
    hide GrowingLoop;
    EntryKept(g, d);
    hide DepthAt, WellFormed, DepthSweep;
    GrowingEntry(g, d);
    var d1 := d[1 := None];
    GrowingChain(g, d1, 2);
    var d2 := d1[2 := None];
    GrowingChain(g, d2, 3);
    SweepFour(g, d, d1, d2, d2[3 := None]);
    FourCells(d, None, None, None);
  }

  lemma {:induction false} GrowingAfter(g: Graph, n: nat)
    requires WellFormed(g) && GrowingLoop(g)
    ensures After(g, n).depth == GrowingState(n % 2 == 1)
  {
    hide DepthAt, WellFormed, DepthSweep, DefsSweep;
    if n > 0 {
      GrowingAfter(g, n - 1);
      if n % 2 == 1 { GrowingRise(g, After(g, n - 1).depth); } else { GrowingFall(g, After(g, n - 1).depth); }
    }
  }

  /** No sweep is ever the last: the analysis does not terminate on this block. */
  lemma GrowingLoopNeverSettles(bytes: seq<byte>, g: Graph, n: nat)
    requires bytes == [0xEA, 0x48, 0xD0, 0xFD, 0x60] && GrowingLoop(g)
    ensures GraphOf(bytes, map[]) == Some(g) && WellFormed(g) && After(g, n + 1) != After(g, n)
  {
    hide After, GraphOf, WellFormed, Decode;
    GrowingLoopGraph(bytes, g);
    GrowingAfter(g, n);
    GrowingAfter(g, n + 1);
    assert After(g, n + 1).depth[1] != After(g, n).depth[1];
  }
}
