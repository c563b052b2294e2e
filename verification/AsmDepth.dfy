/** The depth half of the sweeps: it settles, on the right labelling, whenever one exists. */
module AsmDepth {
  import opened Wrappers
  import opened Isa
  import opened AsmGraph
  import opened AsmSweep
  import opened AsmFixpoint

  // ----- reachability and labellings -----

  ghost predicate IsPath(g: Graph, path: seq<nat>)
    requires WellFormed(g)
  {
    && |path| > 0 && path[0] == 0
    && (forall k :: 0 <= k < |path| ==> path[k] < |g.prog|)
    && forall k, l :: 0 <= k < l < |path| && l == k + 1 ==> Edge(g, path[k], path[l])
  }

  ghost predicate Reachable(g: Graph, i: nat)
    requires WellFormed(g)
  {
    exists path :: IsPath(g, path) && path[|path| - 1] == i
  }

  lemma ReachEntry(g: Graph)
    requires WellFormed(g) && g.prog != []
    ensures Reachable(g, 0)
  {
    assert IsPath(g, [0]);
  }

  lemma ReachStep(g: Graph, p: nat, i: nat)
    requires WellFormed(g) && Reachable(g, p) && p < |g.prog| && Edge(g, p, i)
    ensures i < |g.prog| && Reachable(g, i)
  {
    var path :| IsPath(g, path) && path[|path| - 1] == p;
    var k :| 0 <= k < |g.succs[p]| && g.succs[p][k] == i;
    var longer := path + [i];
    assert IsPath(g, longer) && longer[|longer| - 1] == i;
  }

  /** A consistent depth for every reachable instruction; edges back to the entry are not constrained. */
  ghost predicate Labels(g: Graph, labels: seq<int>)
    requires WellFormed(g) && |labels| == |g.prog|
  {
    && (g.prog != [] ==> labels[0] == 0)
    && forall p, i :: 0 <= p < |g.prog| && 0 < i < |g.prog| && Reachable(g, p) && Edge(g, p, i) ==>
         Consistent(g, labels, p, i)
  }

  ghost predicate Consistent(g: Graph, labels: seq<int>, p: nat, i: nat)
    requires |labels| == |g.prog| && p < |g.prog| && i < |g.prog|
  {
    var delta := Delta(g.prog[p].op.mnemonic);
    delta.Some? && labels[i] == labels[p] + delta.value
  }

  // ----- what a sweep keeps -----

  /** Depths found so far are those of the labelling, each passed on from a predecessor. */
  ghost predicate Conforms(g: Graph, labels: seq<int>, depth: seq<Option<int>>)
    requires WellFormed(g) && |labels| == |g.prog|
  {
    && |depth| == |g.prog| && (g.prog != [] ==> depth[0] == Some(0))
    && forall i :: 0 <= i < |g.prog| && depth[i].Some? ==>
         Reachable(g, i) && depth[i] == Some(labels[i]) && (i > 0 ==> Fed(g, depth, i))
  }

  ghost predicate Fed(g: Graph, depth: seq<Option<int>>, i: nat)
    requires |depth| == |g.prog|
  {
    exists p :: 0 <= p < |g.prog| && p in Preds(g, i) && depth[p].Some?
  }

  /** With a labelling, the join is the label as soon as some predecessor has a depth. */
  lemma JoinIsLabel(g: Graph, labels: seq<int>, depth: seq<Option<int>>, i: nat)
    requires WellFormed(g) && |labels| == |g.prog| && Labels(g, labels) && Conforms(g, labels, depth)
      && 0 < i < |g.prog|
    ensures Join(g, depth, Preds(g, i)) == if Fed(g, depth, i) then Some(labels[i]) else None
    ensures Fed(g, depth, i) ==> Reachable(g, i)
  {
    hide Delta, Join, Preds, Reachable;
    var ps := Preds(g, i);
    forall k | 0 <= k < |ps|
      ensures Candidate(g, depth, ps[k]) == if depth[ps[k]].Some? then Some(labels[i]) else None
      ensures depth[ps[k]].Some? ==> Fed(g, depth, i) && Reachable(g, i)
    {
      var p := ps[k];
      assert p in ps;
      PredsExact(g, i, p);
      if depth[p].Some? {
        assert Consistent(g, labels, p, i);
        ReachStep(g, p, i);
      }
    }
    var r := Join(g, depth, ps);
    if Fed(g, depth, i) {
      var p :| 0 <= p < |g.prog| && p in ps && depth[p].Some?;
      var k :| 0 <= k < |ps| && ps[k] == p;
      assert Agree(g, depth, ps, Some(labels[i]));
      assert Candidate(g, depth, ps[k]).Some?;
    }
  }

  /** An update only adds labels. */
  lemma DepthAtConforms(g: Graph, labels: seq<int>, depth: seq<Option<int>>, i: nat)
    requires WellFormed(g) && |labels| == |g.prog| && Labels(g, labels) && Conforms(g, labels, depth) && i < |g.prog|
    ensures Conforms(g, labels, DepthAt(g, depth, i))
    ensures forall j :: 0 <= j < |g.prog| && depth[j].Some? ==> DepthAt(g, depth, i)[j] == depth[j]
  {
    hide Join, Preds, Reachable, Labels;
    if i > 0 { JoinIsLabel(g, labels, depth, i); }
    var d2 := DepthAt(g, depth, i);
    assert forall j :: 0 <= j < |g.prog| && depth[j].Some? ==> d2[j] == depth[j] by {
      if i > 0 && depth[i].Some? { assert Fed(g, depth, i); }
    }
    forall j | 0 <= j < |g.prog| && d2[j].Some?
      ensures Reachable(g, j) && d2[j] == Some(labels[j]) && (j > 0 ==> Fed(g, d2, j))
    {
      if j > 0 {
        assert Fed(g, depth, j);
        var p :| 0 <= p < |g.prog| && p in Preds(g, j) && depth[p].Some?;
        assert d2[p].Some?;
      }
    }
  }

  lemma {:induction false} DepthSweepConforms(g: Graph, labels: seq<int>, depth: seq<Option<int>>, from: nat)
    requires WellFormed(g) && |labels| == |g.prog| && Labels(g, labels) && Conforms(g, labels, depth)
      && from <= |g.prog|
    ensures Conforms(g, labels, DepthSweep(g, depth, from))
    ensures forall j :: 0 <= j < |g.prog| && depth[j].Some? ==> DepthSweep(g, depth, from)[j] == depth[j]
    decreases |g.prog| - from
  {
    hide DepthAt, Labels, Reachable, Fed;
    if from < |g.prog| {
      DepthAtConforms(g, labels, depth, from);
      DepthSweepConforms(g, labels, DepthAt(g, depth, from), from + 1);
    }
  }

  lemma {:induction false} AfterConforms(g: Graph, labels: seq<int>, n: nat)
    requires WellFormed(g) && |labels| == |g.prog| && Labels(g, labels)
    ensures Conforms(g, labels, After(g, n).depth)
    decreases n
  {
    hide Labels, Reachable, DepthSweep, DefsSweep;
    if n == 0 {
      if g.prog != [] { ReachEntry(g); assert labels[0] == 0 by { LabelOfEntry(g, labels); } }
    } else {
      AfterConforms(g, labels, n - 1);
      DepthSweepConforms(g, labels, After(g, n - 1).depth, 0);
    }
  }

  lemma LabelOfEntry(g: Graph, labels: seq<int>)
    requires WellFormed(g) && |labels| == |g.prog| && Labels(g, labels) && g.prog != []
    ensures labels[0] == 0
  {
  }

  // ----- settling -----

  function Known(depth: seq<Option<int>>, n: nat): (r: nat)
    requires n <= |depth|
    ensures r <= n
  {
    if n == 0 then 0 else Known(depth, n - 1) + if depth[n - 1].Some? then 1 else 0
  }

  lemma {:induction false} KnownMonotone(d: seq<Option<int>>, e: seq<Option<int>>, n: nat)
    requires |d| == |e| && n <= |d| && forall i :: 0 <= i < |d| && d[i].Some? ==> e[i] == d[i]
    ensures Known(d, n) <= Known(e, n)
    ensures Known(d, n) == Known(e, n) ==> forall i :: 0 <= i < n ==> d[i] == e[i]
  {
    if n > 0 { KnownMonotone(d, e, n - 1); }
  }

  lemma {:induction false} DepthStays(g: Graph, m: nat, n: nat)
    requires WellFormed(g) && m <= n && After(g, m + 1).depth == After(g, m).depth
    ensures After(g, n).depth == After(g, m).depth
    decreases n
  {
    hide DefsSweep, DepthSweep, Initial;
    if m < n { DepthStays(g, m, n - 1); }
  }

  lemma {:induction false} KnownOrSettled(g: Graph, labels: seq<int>, n: nat)
    requires WellFormed(g) && |labels| == |g.prog| && Labels(g, labels)
    ensures Known(After(g, n).depth, |g.prog|) >= n || After(g, n + 1).depth == After(g, n).depth
    decreases n
  {
    hide DefsSweep, DepthSweep, Initial, Known, Labels, Conforms;
    if n > 0 {
      KnownOrSettled(g, labels, n - 1);
      AfterConforms(g, labels, n - 1);
      var d, e := After(g, n - 1).depth, After(g, n).depth;
      DepthSweepConforms(g, labels, d, 0);
      KnownMonotone(d, e, |g.prog|);
      if d == e { DepthStays(g, n - 1, n + 1); }
    }
  }

  /** Given a labelling, the depths stop changing within one sweep per instruction. */
  lemma DepthSettles(g: Graph, labels: seq<int>, n: nat)
    requires WellFormed(g) && |labels| == |g.prog| && Labels(g, labels) && n >= |g.prog| + 1
    ensures After(g, n + 1).depth == After(g, n).depth
  {
    hide Known, Labels;
    KnownOrSettled(g, labels, n);
  }

  lemma OnlyCellChanges(g: Graph, depth: seq<Option<int>>, i: nat)
    requires WellFormed(g) && |depth| == |g.prog| && i < |g.prog|
    ensures DepthAt(g, depth, i) == depth[i := DepthAt(g, depth, i)[i]]
  {
    hide Join, Preds;
  }

  lemma {:induction false} DepthLeaves(g: Graph, depth: seq<Option<int>>, from: nat, i: nat)
    requires WellFormed(g) && |depth| == |g.prog| && i < from <= |g.prog|
    ensures DepthSweep(g, depth, from)[i] == depth[i]
    decreases |g.prog| - from
  {
    hide DepthAt;
    if from < |g.prog| {
      OnlyCellChanges(g, depth, from);
      DepthLeaves(g, DepthAt(g, depth, from), from + 1, i);
    }
  }

  lemma {:induction false} DepthFixed(g: Graph, depth: seq<Option<int>>, from: nat)
    requires WellFormed(g) && |depth| == |g.prog| && from <= |g.prog| && DepthSweep(g, depth, from) == depth
    ensures forall i :: from <= i < |g.prog| ==> DepthAt(g, depth, i) == depth
    decreases |g.prog| - from
  {
    hide DepthAt;
    if from < |g.prog| {
      var e := DepthAt(g, depth, from);
      DepthLeaves(g, e, from + 1, from);
      OnlyCellChanges(g, depth, from);
      assert e[from] == depth[from];
      assert e == depth;
      DepthFixed(g, depth, from + 1);
    }
  }

  /** What settles is the labelling itself, on exactly the reachable instructions. */
  lemma SettledDepthIsLabelling(g: Graph, labels: seq<int>, n: nat)
    requires WellFormed(g) && |labels| == |g.prog| && Labels(g, labels) && After(g, n + 1).depth == After(g, n).depth
    ensures forall i :: 0 <= i < |g.prog| ==> After(g, n).depth[i] == if Reachable(g, i) then Some(labels[i]) else None
  {
    hide DefsSweep, Initial, Labels, Reachable;
    var depth := After(g, n).depth;
    AfterConforms(g, labels, n);
    DepthFixed(g, depth, 0);
    hide After;
    forall i | 0 <= i < |g.prog| && Reachable(g, i)
      ensures depth[i].Some?
    {
      var path := PathTo(g, i);
      KnownAlong(g, labels, depth, path, |path| - 1);
    }
  }

  lemma PathTo(g: Graph, i: nat) returns (path: seq<nat>)
    requires WellFormed(g) && Reachable(g, i)
    ensures IsPath(g, path) && path[|path| - 1] == i
  {
    path :| IsPath(g, path) && path[|path| - 1] == i;
  }

  lemma {:induction false} KnownAlong(g: Graph, labels: seq<int>, depth: seq<Option<int>>, path: seq<nat>, k: nat)
    requires WellFormed(g) && |labels| == |g.prog| && Labels(g, labels) && Conforms(g, labels, depth)
    requires forall i :: 0 <= i < |g.prog| ==> DepthAt(g, depth, i) == depth
    requires IsPath(g, path) && k < |path|
    ensures depth[path[k]].Some?
    decreases k
  {
    hide Labels, Join, Preds, Reachable;
    var i := path[k];
    if k > 0 && i > 0 {
      var p := path[k - 1];
      KnownAlong(g, labels, depth, path, k - 1);
      assert Edge(g, p, i);
      PredsExact(g, i, p);
      assert Fed(g, depth, i);
      JoinIsLabel(g, labels, depth, i);
      assert DepthAt(g, depth, i) == depth;
    }
  }

  /**
   * The whole loop terminates whenever a consistent labelling of the reachable instructions exists, and then
   * the depths are that labelling.
   */
  lemma SweepsSettle(g: Graph, labels: seq<int>, n: nat)
    requires WellFormed(g) && |labels| == |g.prog| && Labels(g, labels) && n >= 11 * |g.prog| + 1
    ensures After(g, n + 1) == After(g, n)
    ensures forall i :: 0 <= i < |g.prog| ==> After(g, n).depth[i] == if Reachable(g, i) then Some(labels[i]) else None
  {
    hide Labels, DefsSweep, DepthSweep, Initial, Reachable;
    DefsSettle(g, n);
    DepthSettles(g, labels, n);
    SettledDepthIsLabelling(g, labels, n);
  }
}
