/** The runs of any block, whatever its branches go into: which byte strings are balanced. */
module AsmBytes {
  import opened Wrappers
  import opened Isa
  import opened AsmGraph
  import opened AsmStack

  // ----- parts of runs -----

  /** Program counters and depths in turn, from anywhere. */
  ghost predicate Steps(bytes: seq<byte>, targets: map<nat, nat>, run: seq<(nat, int)>) {
    && |run| > 0
    && forall k, l :: 0 <= k < l < |run| && l == k + 1 ==>
         May(bytes, targets, run[k].0, run[k].1, Goto(run[l].0, run[l].1))
  }

  /** A way from a byte, entered at depth zero, out of the block at depth `d`. */
  ghost predicate WayOut(bytes: seq<byte>, targets: map<nat, nat>, pc: nat, run: seq<(nat, int)>, d: int) {
    Steps(bytes, targets, run) && run[0] == (pc, 0) && May(bytes, targets, run[|run| - 1].0, run[|run| - 1].1, Leave(d))
  }

  /** From this byte control can get out. */
  ghost predicate Live(bytes: seq<byte>, targets: map<nat, nat>, pc: nat) {
    exists run, d :: WayOut(bytes, targets, pc, run, d)
  }

  /** Entering deeper leaves deeper, by as much. */
  lemma MayShift(bytes: seq<byte>, targets: map<nat, nat>, pc: nat, depth: int, up: int)
    ensures forall q, d :: May(bytes, targets, pc, depth, Goto(q, d)) <==>
      May(bytes, targets, pc, depth + up, Goto(q, d + up))
    ensures forall d :: May(bytes, targets, pc, depth, Leave(d)) <==> May(bytes, targets, pc, depth + up, Leave(d + up))
  {
    hide Decode, Sensible, BranchTarget, Length;
  }

  function Shifted(run: seq<(nat, int)>, up: int): (moved: seq<(nat, int)>)
    ensures |moved| == |run|
    ensures forall k :: 0 <= k < |run| ==> moved[k] == (run[k].0, run[k].1 + up)
  {
    seq(|run|, k requires 0 <= k < |run| => (run[k].0, run[k].1 + up))
  }

  lemma StepsShift(bytes: seq<byte>, targets: map<nat, nat>, run: seq<(nat, int)>, up: int)
    requires Steps(bytes, targets, run)
    ensures Steps(bytes, targets, Shifted(run, up))
  {
    hide May;
    var moved := Shifted(run, up);
    forall k, l | 0 <= k < l < |moved| && l == k + 1
      ensures May(bytes, targets, moved[k].0, moved[k].1, Goto(moved[l].0, moved[l].1))
    {
      assert May(bytes, targets, run[k].0, run[k].1, Goto(run[l].0, run[l].1));
      MayShift(bytes, targets, run[k].0, run[k].1, up);
    }
  }

  /** A run goes on along any way out from where it is. */
  lemma RunGoesOut(bytes: seq<byte>, targets: map<nat, nat>, run: seq<(nat, int)>, way: seq<(nat, int)>, d: int)
    returns (all: seq<(nat, int)>)
    requires IsRun(bytes, targets, run) && WayOut(bytes, targets, run[|run| - 1].0, way, d)
    ensures LeavesAt(bytes, targets, all, run[|run| - 1].1 + d)
  {
    hide May;
    var up, n := run[|run| - 1].1, |run| - 1;
    var moved := Shifted(way, up);
    StepsShift(bytes, targets, way, up);
    all := run[..n] + moved;
    assert moved[0] == run[n];
    forall k, l | 0 <= k < l < |all| && l == k + 1
      ensures May(bytes, targets, all[k].0, all[k].1, Goto(all[l].0, all[l].1))
    {
      if l <= n {
        assert all[k] == run[k] && all[l] == run[l];
      } else {
        assert all[k] == moved[k - n] && all[l] == moved[l - n];
      }
    }
    MayShift(bytes, targets, way[|way| - 1].0, way[|way| - 1].1, up);
  }

  /** One step before a way out is the start of a way out. */
  lemma StepToLive(bytes: seq<byte>, targets: map<nat, nat>, pc: nat, depth: int, q: nat, e: int)
    requires May(bytes, targets, pc, depth, Goto(q, e)) && Live(bytes, targets, q)
    ensures Live(bytes, targets, pc)
  {
    hide May;
    var way: seq<(nat, int)>, d: int :| WayOut(bytes, targets, q, way, d);
    MayShift(bytes, targets, pc, depth, -depth);
    StepsShift(bytes, targets, way, e - depth);
    var moved := Shifted(way, e - depth);
    MayShift(bytes, targets, way[|way| - 1].0, way[|way| - 1].1, e - depth);
    var all := [(pc, 0)] + moved;
    assert May(bytes, targets, pc, 0, Goto(q, e - depth));
    forall k, l | 0 <= k < l < |all| && l == k + 1
      ensures May(bytes, targets, all[k].0, all[k].1, Goto(all[l].0, all[l].1))
    {
      if k > 0 { assert all[k] == moved[k - 1] && all[l] == moved[l - 1]; }
    }
    assert WayOut(bytes, targets, pc, all, d + (e - depth));
  }

  lemma LeaveIsLive(bytes: seq<byte>, targets: map<nat, nat>, pc: nat, depth: int, d: int)
    requires May(bytes, targets, pc, depth, Leave(d))
    ensures Live(bytes, targets, pc)
  {
    hide May;
    MayShift(bytes, targets, pc, depth, -depth);
    assert WayOut(bytes, targets, pc, [(pc, 0)], d - depth);
  }

  // ----- depths of bytes -----

  /** A step at these depths stays at them as long as control can still get out, and gets out at zero. */
  ghost predicate Keeps(bytes: seq<byte>, targets: map<nat, nat>, depths: map<nat, int>, pc: nat)
    requires pc in depths
  {
    && (forall q, d :: May(bytes, targets, pc, depths[pc], Goto(q, d)) && Live(bytes, targets, q) ==> q in depths && depths[q] == d)
    && forall d :: May(bytes, targets, pc, depths[pc], Leave(d)) ==> d == 0
  }

  ghost predicate ByteDepths(bytes: seq<byte>, targets: map<nat, nat>, depths: map<nat, int>) {
    && (Live(bytes, targets, 0) ==> 0 in depths && depths[0] == 0)
    && forall pc :: pc in depths ==> Keeps(bytes, targets, depths, pc)
  }

  /** A point of a run that still gets out is at its byte's depth. */
  lemma {:induction false} RunAtDepths(bytes: seq<byte>, targets: map<nat, nat>, depths: map<nat, int>,
      run: seq<(nat, int)>, k: nat)
    requires ByteDepths(bytes, targets, depths) && IsRun(bytes, targets, run) && k < |run|
      && Live(bytes, targets, run[k].0)
    ensures run[k].0 in depths && depths[run[k].0] == run[k].1
    decreases k
  {
    hide May, Live;
    if k > 0 {
      RunStep(bytes, targets, run, k);
      StepToLive(bytes, targets, run[k - 1].0, run[k - 1].1, run[k].0, run[k].1);
      RunAtDepths(bytes, targets, depths, run, k - 1);
      assert Keeps(bytes, targets, depths, run[k - 1].0);
    }
  }

  ghost predicate Visits(bytes: seq<byte>, targets: map<nat, nat>, pc: nat, depth: int) {
    exists run :: IsRun(bytes, targets, run) && |run| > 0 && run[|run| - 1] == (pc, depth)
  }

  /** In a balanced block a byte from which control gets out is visited at one depth only. */
  lemma OneDepth(bytes: seq<byte>, targets: map<nat, nat>, pc: nat, d: int, e: int)
    requires RunsBalanced(bytes, targets) && Visits(bytes, targets, pc, d) && Visits(bytes, targets, pc, e)
      && Live(bytes, targets, pc)
    ensures d == e
  {
    hide May, IsRun, LeavesAt;
    var way: seq<(nat, int)>, out: int :| WayOut(bytes, targets, pc, way, out);
    hide WayOut;
    var v: seq<(nat, int)> :| IsRun(bytes, targets, v) && |v| > 0 && v[|v| - 1] == (pc, d);
    var w: seq<(nat, int)> :| IsRun(bytes, targets, w) && |w| > 0 && w[|w| - 1] == (pc, e);
    var first := RunGoesOut(bytes, targets, v, way, out);
    var second := RunGoesOut(bytes, targets, w, way, out);
  }

  ghost predicate Passed(bytes: seq<byte>, targets: map<nat, nat>, pc: nat) {
    Live(bytes, targets, pc) && exists d :: Visits(bytes, targets, pc, d)
  }

  ghost function VisitDepth(bytes: seq<byte>, targets: map<nat, nat>, pc: nat): (d: int)
    requires Passed(bytes, targets, pc)
    ensures Visits(bytes, targets, pc, d)
  {
    var d :| Visits(bytes, targets, pc, d);
    d
  }

  lemma LiveInside(bytes: seq<byte>, targets: map<nat, nat>, pc: nat)
    requires Live(bytes, targets, pc)
    ensures pc < |bytes|
  {
    var run: seq<(nat, int)>, d: int :| WayOut(bytes, targets, pc, run, d);
    if |run| > 1 { assert May(bytes, targets, run[0].0, run[0].1, Goto(run[1].0, run[1].1)); }
  }

  lemma VisitMore(bytes: seq<byte>, targets: map<nat, nat>, pc: nat, depth: int, q: nat, d: int)
    requires Visits(bytes, targets, pc, depth) && May(bytes, targets, pc, depth, Goto(q, d))
    ensures Visits(bytes, targets, q, d)
  {
    hide May, IsRun;
    var run: seq<(nat, int)> :| IsRun(bytes, targets, run) && |run| > 0 && run[|run| - 1] == (pc, depth);
    ExtendRun(bytes, targets, run, (q, d));
    assert (run + [(q, d)])[|run + [(q, d)]| - 1] == (q, d);
  }

  lemma BalancedHasDepths(bytes: seq<byte>, targets: map<nat, nat>) returns (depths: map<nat, int>)
    requires RunsBalanced(bytes, targets)
    ensures ByteDepths(bytes, targets, depths)
  {
    hide May, Live, Visits, RunsBalanced;
    depths := map pc: nat | 0 <= pc < |bytes| && Passed(bytes, targets, pc) :: VisitDepth(bytes, targets, pc);
    StartVisited(bytes, targets);
    if Live(bytes, targets, 0) {
      LiveInside(bytes, targets, 0);
      OneDepth(bytes, targets, 0, VisitDepth(bytes, targets, 0), 0);
    }
    forall pc | pc in depths
      ensures Keeps(bytes, targets, depths, pc)
    {
      forall q, d | May(bytes, targets, pc, depths[pc], Goto(q, d)) && Live(bytes, targets, q)
        ensures q in depths && depths[q] == d
      {
        VisitMore(bytes, targets, pc, depths[pc], q, d);
        LiveInside(bytes, targets, q);
        OneDepth(bytes, targets, q, VisitDepth(bytes, targets, q), d);
      }
      forall d | May(bytes, targets, pc, depths[pc], Leave(d))
        ensures d == 0
      {
        LeavesZero(bytes, targets, pc, depths[pc], d);
      }
    }
  }

  lemma StartVisited(bytes: seq<byte>, targets: map<nat, nat>)
    ensures Visits(bytes, targets, 0, 0)
  {
    assert IsRun(bytes, targets, [(0, 0)]);
  }

  lemma LeavesZero(bytes: seq<byte>, targets: map<nat, nat>, pc: nat, depth: int, d: int)
    requires RunsBalanced(bytes, targets) && Visits(bytes, targets, pc, depth)
      && May(bytes, targets, pc, depth, Leave(d))
    ensures d == 0
  {
    hide May, IsRun;
    var run: seq<(nat, int)> :| IsRun(bytes, targets, run) && |run| > 0 && run[|run| - 1] == (pc, depth);
    assert LeavesAt(bytes, targets, run, d);
  }

  /**
   * Any block at all is balanced if and only if its bytes have depths that every step keeps and every way out ends at
   * zero.
   */
  lemma AnyBlockBalanced(bytes: seq<byte>, targets: map<nat, nat>)
    ensures RunsBalanced(bytes, targets) <==> exists depths :: ByteDepths(bytes, targets, depths)
  {
    hide May, Live, ByteDepths, Keeps, IsRun;
    if RunsBalanced(bytes, targets) {
      var depths := BalancedHasDepths(bytes, targets);
    }
    if depths :| ByteDepths(bytes, targets, depths) {
      forall run: seq<(nat, int)>, d: int | LeavesAt(bytes, targets, run, d)
        ensures d == 0
      {
        DepthsBalance(bytes, targets, depths, run, d);
      }
    }
  }

  lemma DepthsBalance(bytes: seq<byte>, targets: map<nat, nat>, depths: map<nat, int>, run: seq<(nat, int)>, d: int)
    requires ByteDepths(bytes, targets, depths) && LeavesAt(bytes, targets, run, d)
    ensures d == 0
  {
    hide May, Live, IsRun;
    IsRunSome(bytes, targets, run);
    var at := run[|run| - 1];
    LeaveIsLive(bytes, targets, at.0, at.1, d);
    RunAtDepths(bytes, targets, depths, run, |run| - 1);
    assert Keeps(bytes, targets, depths, at.0);
  }
}
