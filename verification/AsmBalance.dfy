/**
 * When the stack report is right, said of the block alone: some consistent depth labelling exists and leaves at zero.
 */
module AsmBalance {
  import opened Wrappers
  import opened Isa
  import opened AsmGraph
  import opened AsmSweep
  import opened AsmFixpoint
  import opened AsmDepth
  import opened AsmStack

  // ----- walks and their change of depth -----

  /** Instructions in turn, each a successor of the one before. */
  ghost predicate Walk(g: Graph, w: seq<nat>)
    requires WellFormed(g)
  {
    && w != [] && (forall k :: 0 <= k < |w| ==> w[k] < |g.prog|)
    && forall k, l :: 0 <= k < l < |w| && l == k + 1 ==> Edge(g, w[k], w[l])
  }

  lemma WalkSnoc(g: Graph, v: seq<nat>, i: nat)
    requires WellFormed(g) && Walk(g, v) && i < |g.prog| && Edge(g, v[|v| - 1], i)
    ensures Walk(g, v + [i]) && Along(g, v + [i]) == Along(g, v) + Step(g, v[|v| - 1])
  {
    hide WellFormed, Edge, Step;
    assert (v + [i])[..|v|] == v;
  }

  lemma WalkInit(g: Graph, w: seq<nat>)
    requires WellFormed(g) && Walk(g, w) && |w| > 1
    ensures var n := |w| - 1; Walk(g, w[..n]) && w[n] < |g.prog| && Edge(g, w[n - 1], w[n])
    ensures Along(g, w) == Along(g, w[..|w| - 1]) + Step(g, w[|w| - 2])
  {
    hide WellFormed, Edge, Step;
  }

  /** One walk after another that starts where the first ends. */
  lemma {:induction false} WalkOn(g: Graph, v: seq<nat>, w: seq<nat>)
    requires WellFormed(g) && Walk(g, v) && Walk(g, w) && w[0] == v[|v| - 1]
    ensures var all := v + w[1..];
      Walk(g, all) && all[0] == v[0] && all[|all| - 1] == w[|w| - 1] && Along(g, all) == Along(g, v) + Along(g, w)
    decreases |w|
  {
    if |w| == 1 {
      assert v + w[1..] == v;
    } else {
      var n := |w| - 1;
      var before := v + w[..n][1..];
      WalkInit(g, w);
      hide WellFormed, Edge, Step, Along, Walk;
      WalkOn(g, v, w[..n]);
      assert v + w[1..] == before + [w[n]] && before[|before| - 1] == w[n - 1];
      WalkSnoc(g, before, w[n]);
      WalkRange(g, v);
    }
  }

  lemma WalkFromEntry(g: Graph, w: seq<nat>)
    requires WellFormed(g)
    ensures IsPath(g, w) <==> Walk(g, w) && w[0] == 0
  {
    hide Edge;
  }

  // ----- ways out -----

  ghost predicate IsWay(bytes: seq<byte>, g: Graph, i: nat, w: seq<nat>)
    requires WellFormed(g)
  {
    Walk(g, w) && w[0] == i && Out(bytes, g, w[|w| - 1])
  }

  /** Change of depth on a way out. */
  function Total(g: Graph, w: seq<nat>): int
    requires w != [] && forall k :: 0 <= k < |w| ==> w[k] < |g.prog|
  {
    Along(g, w) + LeaveStep(g, w[|w| - 1])
  }

  /** From every reachable instruction some way leads out. */
  ghost predicate CanLeave(bytes: seq<byte>, g: Graph)
    requires WellFormed(g)
  {
    forall i :: 0 <= i < |g.prog| && Reachable(g, i) ==> exists w :: IsWay(bytes, g, i, w)
  }

  /** Every way out from the entry is a run that leaves, at the depth that adds up on the way. */
  lemma WayLeaves(bytes: seq<byte>, targets: map<nat, nat>, g: Graph, w: seq<nat>)
    requires WellFormed(g) && IsGraph(bytes, targets, g) && Ordinary(bytes, targets, g)
    requires RunsBalanced(bytes, targets) && IsWay(bytes, g, 0, w)
    ensures Total(g, w) == 0
  {
    hide May, IsGraph, OrdinaryAt, WellFormed, LeaveStep, IsRun, Along, Out, Reachable;
    WalkFromEntry(g, w);
    PathReaches(g, w);
    var run := RunOnPath(bytes, targets, g, w);
    var e := w[|w| - 1];
    OutMay(bytes, targets, g, e, Along(g, w));
    assert LeavesAt(bytes, targets, run, Total(g, w));
  }

  lemma JoinedTotal(bytes: seq<byte>, g: Graph, path: seq<nat>, w: seq<nat>)
    requires WellFormed(g) && IsPath(g, path) && IsWay(bytes, g, path[|path| - 1], w)
    ensures IsWay(bytes, g, 0, path + w[1..]) && Total(g, path + w[1..]) == Along(g, path) + Total(g, w)
  {
    hide Walk, IsPath, WellFormed, LeaveStep, Along, Out;
    WalkFromEntry(g, path);
    WalkOn(g, path, w);
    assert Walk(g, w);
    WalkRange(g, w);
    WalkRange(g, path + w[1..]);
  }

  lemma WalkRange(g: Graph, w: seq<nat>)
    requires WellFormed(g) && Walk(g, w)
    ensures w != [] && forall k :: 0 <= k < |w| ==> w[k] < |g.prog|
  {
  }

  ghost function WayFrom(bytes: seq<byte>, g: Graph, i: nat): (w: seq<nat>)
    requires WellFormed(g) && CanLeave(bytes, g) && i < |g.prog| && Reachable(g, i)
    ensures IsWay(bytes, g, i, w)
  {
    var w :| IsWay(bytes, g, i, w);
    w
  }

  /** The depth from which every way out leads to zero. */
  ghost function Needed(bytes: seq<byte>, g: Graph, i: nat): int
    requires WellFormed(g) && CanLeave(bytes, g) && i < |g.prog|
  {
    if Reachable(g, i) then -Total(g, WayFrom(bytes, g, i)) else 0
  }

  /** Whatever way out is taken, and however an instruction is reached, it is reached at the depth needed. */
  lemma ReachedAtNeeded(bytes: seq<byte>, targets: map<nat, nat>, g: Graph, path: seq<nat>, w: seq<nat>)
    requires WellFormed(g) && IsGraph(bytes, targets, g) && Ordinary(bytes, targets, g) && RunsBalanced(bytes, targets)
    requires IsPath(g, path) && IsWay(bytes, g, path[|path| - 1], w)
    ensures Along(g, path) == -Total(g, w)
  {
    hide IsPath, Ordinary, IsGraph, RunsBalanced, Along, Total, WellFormed, Edge, Out;
    assert w != [];
    JoinedTotal(bytes, g, path, w);
    WayLeaves(bytes, targets, g, path + w[1..]);
  }

  lemma NeededConsistent(bytes: seq<byte>, targets: map<nat, nat>, g: Graph, p: nat, i: nat)
    requires WellFormed(g) && IsGraph(bytes, targets, g) && Ordinary(bytes, targets, g) && RunsBalanced(bytes, targets)
    requires CanLeave(bytes, g) && p < |g.prog| && i < |g.prog| && Reachable(g, p) && Edge(g, p, i)
    ensures Needed(bytes, g, i) == Needed(bytes, g, p) + Step(g, p)
  {
    hide IsWay, Ordinary, IsGraph, RunsBalanced, Total, WellFormed, Step, CanLeave;
    var path := PathTo(g, p);
    ReachStep(g, p, i);
    var longer := path + [i];
    assert longer[..|path|] == path;
    assert IsPath(g, longer);
    ReachedAtNeeded(bytes, targets, g, path, WayFrom(bytes, g, p));
    ReachedAtNeeded(bytes, targets, g, longer, WayFrom(bytes, g, i));
  }

  /** If all runs are balanced, the depths needed are a consistent labelling, also on edges back to the entry. */
  lemma BalancedHasLabels(bytes: seq<byte>, targets: map<nat, nat>, g: Graph) returns (labels: seq<int>)
    requires WellFormed(g) && IsGraph(bytes, targets, g) && g.prog != [] && Ordinary(bytes, targets, g)
    requires CanLeave(bytes, g) && RunsBalanced(bytes, targets)
    ensures |labels| == |g.prog| && Labels(g, labels) && Closed(g, labels)
  {
    hide IsGraph, RunsBalanced, Reachable, Needed, Edge, CanLeave, Lost;
    labels := seq(|g.prog|, i requires 0 <= i < |g.prog| => Needed(bytes, g, i));
    EntryNeedsZero(bytes, targets, g);
    forall p, i | 0 <= p < |g.prog| && 0 <= i < |g.prog| && Reachable(g, p) && Edge(g, p, i)
      ensures labels[i] == labels[p] + Step(g, p) && Delta(g.prog[p].op.mnemonic).Some?
    {
      NeededConsistent(bytes, targets, g, p, i);
      assert OrdinaryAt(bytes, targets, g.prog, p);
      EdgesHaveDelta(bytes, targets, g, p, i);
    }
  }

  lemma EntryNeedsZero(bytes: seq<byte>, targets: map<nat, nat>, g: Graph)
    requires WellFormed(g) && IsGraph(bytes, targets, g) && g.prog != [] && Ordinary(bytes, targets, g)
    requires CanLeave(bytes, g) && RunsBalanced(bytes, targets)
    ensures Needed(bytes, g, 0) == 0
  {
    hide Ordinary, IsGraph, RunsBalanced, Total, WellFormed, IsWay, Reachable, CanLeave;
    ReachEntry(g);
    WayLeaves(bytes, targets, g, WayFrom(bytes, g, 0));
  }

  /**
   * The runs are balanced if and only if some labelling consistent on every edge is zero wherever control may leave.
   */
  lemma BalancedExactly(bytes: seq<byte>, targets: map<nat, nat>, g: Graph)
    requires WellFormed(g) && GraphOf(bytes, targets) == Some(g) && g.prog != [] && Ordinary(bytes, targets, g)
    requires CanLeave(bytes, g)
    ensures RunsBalanced(bytes, targets) <==> exists labels :: BalancedLabels(bytes, g, labels)
  {
    GraphWellFormed(bytes, targets);
    assert IsGraph(bytes, targets, g);
    hide IsGraph, GraphOf, WellFormed, RunsBalanced, ZeroAtExits, LostAtZero, Leaves, Closed, Labels, Ordinary,
         CanLeave;
    if RunsBalanced(bytes, targets) {
      var labels := BalancedHasLabels(bytes, targets, g);
      RunsOnLabels(bytes, targets, g, labels);
      assert BalancedLabels(bytes, g, labels);
    }
    if labels: seq<int> :| BalancedLabels(bytes, g, labels) {
      RunsOnLabels(bytes, targets, g, labels);
    }
  }

  ghost predicate BalancedLabels(bytes: seq<byte>, g: Graph, labels: seq<int>)
    requires WellFormed(g)
  {
    |labels| == |g.prog| && Labels(g, labels) && Closed(g, labels) && ZeroAtExits(g, labels)
      && LostAtZero(bytes, g, labels)
  }

  // ----- the report -----

  /**
   * On a block with any consistent depth labelling the sweeps stop. The report then looks at the exits alone, and it is
   * right if and only if orphans, branches out of the block and edges back to the entry do not make a difference.
   */
  lemma LabelledReportIsExact(bytes: seq<byte>, targets: map<nat, nat>, g: Graph, labels: seq<int>, n: nat)
    requires WellFormed(g) && GraphOf(bytes, targets) == Some(g) && g.prog != [] && Ordinary(bytes, targets, g)
    requires |labels| == |g.prog| && Labels(g, labels) && n >= 11 * |g.prog| + 1
    ensures After(g, n + 1) == After(g, n)
    ensures Balanced(g, After(g, n)) <==> ZeroAtExits(g, labels) && NoOrphans(g)
    ensures RunsBalanced(bytes, targets) && NoOrphans(g) ==> Balanced(g, After(g, n))
    ensures (Balanced(g, After(g, n)) ==> RunsBalanced(bytes, targets)) <==>
      (ZeroAtExits(g, labels) && NoOrphans(g) ==> LostAtZero(bytes, g, labels) && (Leaves(bytes, g) ==> Closed(g, labels)))
    ensures (Balanced(g, After(g, n)) <==> RunsBalanced(bytes, targets)) <==>
      (ZeroAtExits(g, labels) ==> (NoOrphans(g) <==> LostAtZero(bytes, g, labels) && (Leaves(bytes, g) ==> Closed(g, labels))))
  {
    hide After, Ordinary, Labels, Balanced, RunsBalanced, NoOrphans, Reachable, GraphOf, WellFormed, ZeroAtExits,
         LostAtZero, Leaves,
         Closed, KeepsS;
    SweepsSettle(g, labels, n);
    OrdinaryKeepsS(bytes, targets, g);
    BalancedOnLabels(g, labels, n);
    RunsOnLabels(bytes, targets, g, labels);
  }

  /**
   * If all runs are balanced, from everywhere a way leads out, and no exit is an orphan, the sweeps stop and report
   * it.
   */
  lemma BalancedIsReported(bytes: seq<byte>, targets: map<nat, nat>, g: Graph, n: nat)
    requires WellFormed(g) && GraphOf(bytes, targets) == Some(g) && g.prog != [] && Ordinary(bytes, targets, g)
    requires CanLeave(bytes, g) && RunsBalanced(bytes, targets) && n >= 11 * |g.prog| + 1
    ensures After(g, n + 1) == After(g, n) && (Balanced(g, After(g, n)) <==> NoOrphans(g))
  {
    hide After, Ordinary, Labels, Balanced, RunsBalanced, NoOrphans, CanLeave, WellFormed, ZeroAtExits, LostAtZero,
         Leaves, Closed;
    GraphWellFormed(bytes, targets);
    assert IsGraph(bytes, targets, g);
    hide IsGraph, GraphOf;
    var labels := BalancedHasLabels(bytes, targets, g);
    LabelledReportIsExact(bytes, targets, g, labels, n);
    RunsOnLabels(bytes, targets, g, labels);
  }
}
