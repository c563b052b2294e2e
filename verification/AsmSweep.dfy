/** The in-place sweeps of the flow analysis: which registers are surely defined, and how deep the stack is. */
module AsmSweep {
  import opened Wrappers
  import opened Isa
  import opened AsmGraph

  // ----- predecessors -----

  ghost predicate Below(ps: seq<nat>, n: nat) {
    forall k :: 0 <= k < |ps| ==> ps[k] < n
  }

  /** One entry per edge, as a target list with repetitions would add them. */
  function Entries(targets: seq<nat>, i: nat, p: nat): (r: seq<nat>)
    ensures forall k :: 0 <= k < |r| ==> r[k] == p
  {
    if targets == [] then []
    else Entries(targets[..|targets| - 1], i, p) + if targets[|targets| - 1] == i then [p] else []
  }

  function PredsBelow(g: Graph, i: nat, upto: nat): (r: seq<nat>)
    requires upto <= |g.succs|
    ensures Below(r, upto)
  {
    if upto == 0 then [] else PredsBelow(g, i, upto - 1) + Entries(g.succs[upto - 1], i, upto - 1)
  }

  function Preds(g: Graph, i: nat): (r: seq<nat>)
    ensures Below(r, |g.succs|)
  {
    PredsBelow(g, i, |g.succs|)
  }

  lemma {:induction false} EntriesExact(targets: seq<nat>, i: nat, p: nat)
    ensures Entries(targets, i, p) != [] <==> i in targets
  {
    if targets != [] {
      var n := |targets| - 1;
      EntriesExact(targets[..n], i, p);
      assert targets == targets[..n] + [targets[n]];
    }
  }

  lemma EntriesMember(targets: seq<nat>, i: nat, p: nat, q: nat)
    ensures q in Entries(targets, i, p) <==> q == p && Entries(targets, i, p) != []
  {
    var e := Entries(targets, i, p);
    if e != [] { assert e[0] == p; }
  }

  lemma InAppend(a: seq<nat>, b: seq<nat>, x: nat)
    ensures x in a + b <==> x in a || x in b
  {
  }

  lemma {:induction false} PredsBelowExact(g: Graph, i: nat, upto: nat, p: nat)
    requires upto <= |g.succs|
    ensures p in PredsBelow(g, i, upto) <==> p < upto && Edge(g, p, i)
  {
    if upto > 0 {
      PredsBelowExact(g, i, upto - 1, p);
      EntriesExact(g.succs[upto - 1], i, upto - 1);
      EntriesMember(g.succs[upto - 1], i, upto - 1, p);
      InAppend(PredsBelow(g, i, upto - 1), Entries(g.succs[upto - 1], i, upto - 1), p);
    }
  }

  /** The predecessor list holds exactly the sources of edges. */
  lemma PredsExact(g: Graph, i: nat, p: nat)
    ensures p in Preds(g, i) <==> p < |g.succs| && Edge(g, p, i)
  {
    PredsBelowExact(g, i, |g.succs|, p);
  }

  // ----- registers surely defined -----

  datatype Defs = Defs(into: seq<Option<Registers>>, out: seq<Registers>)

  ghost predicate DefsFor(g: Graph, d: Defs) { |d.into| == |d.out| == |g.prog| }

  /** Intersection over the predecessors' outgoing sets; the entry starts from nothing defined. */
  function Meet(ps: seq<nat>, out: seq<Registers>, start: Option<Registers>): (r: Option<Registers>)
    requires Below(ps, |out|)
    ensures r.None? <==> start.None? && ps == []
  {
    if ps == [] then start
    else
      var n := |ps| - 1;
      var r := Meet(ps[..n], out, start);
      Some(if r.None? then out[ps[n]] else Intersect(r.value, out[ps[n]]))
  }

  lemma {:induction false} MeetIsLowerBound(ps: seq<nat>, out: seq<Registers>, start: Option<Registers>)
    requires Below(ps, |out|) && Meet(ps, out, start).Some?
    ensures forall p :: p in ps ==> Within(Meet(ps, out, start).value, out[p])
    ensures start.Some? ==> Within(Meet(ps, out, start).value, start.value)
  {
    if ps != [] {
      var n := |ps| - 1;
      if Meet(ps[..n], out, start).Some? { MeetIsLowerBound(ps[..n], out, start); }
      assert ps == ps[..n] + [ps[n]];
    }
  }

  /** The meet grows with the sets it is taken over. */
  lemma {:induction false} MeetMonotone(ps: seq<nat>, out: seq<Registers>, out2: seq<Registers>,
      start: Option<Registers>)
    requires Below(ps, |out|) && |out| == |out2| && forall p :: 0 <= p < |out| ==> Within(out[p], out2[p])
    ensures Meet(ps, out, start).Some? == Meet(ps, out2, start).Some?
    ensures Meet(ps, out, start).Some? ==> Within(Meet(ps, out, start).value, Meet(ps, out2, start).value)
  {
    if ps != [] {
      MeetMonotone(ps[..|ps| - 1], out, out2, start);
    }
  }

  function Start(i: nat): Option<Registers> { if i == 0 then Some(NONE) else None }

  function DefsAt(g: Graph, d: Defs, i: nat): (r: Defs)
    requires WellFormed(g) && DefsFor(g, d) && i < |g.prog|
    ensures DefsFor(g, r)
  {
    var defs := Meet(Preds(g, i), d.out, Start(i));
    if defs.None? then d.(into := d.into[i := None])
    else Defs(d.into[i := defs], d.out[i := Merge(defs.value, Writes(g.prog[i].op))])
  }

  // ----- stack depth -----

  function Candidate(g: Graph, depth: seq<Option<int>>, p: nat): Option<int>
    requires |depth| == |g.prog| && p < |g.prog|
  {
    var delta := Delta(g.prog[p].op.mnemonic);
    if depth[p].Some? && delta.Some? then Some(depth[p].value + delta.value) else None
  }

  /** The first candidate, among the predecessors that have one. */
  function First(g: Graph, depth: seq<Option<int>>, ps: seq<nat>): (r: Option<int>)
    requires |depth| == |g.prog| && Below(ps, |g.prog|)
    ensures r.Some? ==> exists k :: 0 <= k < |ps| && Candidate(g, depth, ps[k]) == r
    ensures r.None? ==> forall k :: 0 <= k < |ps| ==> Candidate(g, depth, ps[k]).None?
  {
    if ps == [] then None
    else if Candidate(g, depth, ps[0]).Some? then Candidate(g, depth, ps[0])
    else
      var r := First(g, depth, ps[1..]);
      assert forall k :: 1 <= k < |ps| ==> ps[k] == ps[1..][k - 1];
      assert r.Some? ==> exists k :: 0 <= k < |ps| && Candidate(g, depth, ps[k]) == r by {
        if r.Some? {
          var k :| 0 <= k < |ps[1..]| && Candidate(g, depth, ps[1..][k]) == r;
          assert Candidate(g, depth, ps[k + 1]) == r;
        }
      }
      r
  }

  predicate Agree(g: Graph, depth: seq<Option<int>>, ps: seq<nat>, d: Option<int>)
    requires |depth| == |g.prog| && Below(ps, |g.prog|)
  {
    forall k :: 0 <= k < |ps| ==> Candidate(g, depth, ps[k]).None? || Candidate(g, depth, ps[k]) == d
  }

  function Join(g: Graph, depth: seq<Option<int>>, ps: seq<nat>): (r: Option<int>)
    requires |depth| == |g.prog| && Below(ps, |g.prog|)
    ensures r.Some? ==> Agree(g, depth, ps, r) && exists k :: 0 <= k < |ps| && Candidate(g, depth, ps[k]) == r
    ensures r.None? ==>
      (forall d: int :: Agree(g, depth, ps, Some(d)) ==> forall k :: 0 <= k < |ps| ==> Candidate(g, depth, ps[k]).None?)
  {
    var first := First(g, depth, ps);
    if first.Some? && Agree(g, depth, ps, first) then first else None
  }

  function DepthAt(g: Graph, depth: seq<Option<int>>, i: nat): (r: seq<Option<int>>)
    requires WellFormed(g) && |depth| == |g.prog| && i < |g.prog|
    ensures |r| == |depth|
  {
    if i == 0 then depth[0 := Some(0)]
    else if Preds(g, i) == [] then depth
    else depth[i := Join(g, depth, Preds(g, i))]
  }

  // ----- sweeps -----

  datatype Flow = Flow(defs: Defs, depth: seq<Option<int>>)

  ghost predicate FlowFor(g: Graph, f: Flow) { DefsFor(g, f.defs) && |f.depth| == |g.prog| }

  function Initial(g: Graph): (f: Flow)
    ensures FlowFor(g, f)
  {
    var n := |g.prog|;
    Flow(Defs(seq(n, i => if i == 0 then Some(NONE) else None), seq(n, _ => NONE)),
         seq(n, i => if i == 0 then Some(0) else None))
  }

  function DefsSweep(g: Graph, d: Defs, from: nat): (r: Defs)
    requires WellFormed(g) && DefsFor(g, d) && from <= |g.prog|
    ensures DefsFor(g, r)
    decreases |g.prog| - from
  {
    if from == |g.prog| then d else DefsSweep(g, DefsAt(g, d, from), from + 1)
  }

  function DepthSweep(g: Graph, depth: seq<Option<int>>, from: nat): (r: seq<Option<int>>)
    requires WellFormed(g) && |depth| == |g.prog| && from <= |g.prog|
    ensures |r| == |depth|
    decreases |g.prog| - from
  {
    if from == |g.prog| then depth else DepthSweep(g, DepthAt(g, depth, from), from + 1)
  }

  function Sweep(g: Graph, f: Flow): (r: Flow)
    requires WellFormed(g) && FlowFor(g, f)
    ensures FlowFor(g, r)
  {
    Flow(DefsSweep(g, f.defs, 0), DepthSweep(g, f.depth, 0))
  }

  /** State after `n` sweeps. */
  function After(g: Graph, n: nat): (f: Flow)
    requires WellFormed(g)
    ensures FlowFor(g, f)
  {
    if n == 0 then Initial(g) else Sweep(g, After(g, n - 1))
  }

  // ----- the loop -----

  /** Sweep until nothing changes, but at most `limit` times: on some blocks the depths never settle. */
  method Settle(g: Graph, limit: nat) returns (f: Flow, settled: bool, ghost sweeps: nat)
    requires WellFormed(g)
    ensures FlowFor(g, f) && f == After(g, sweeps) && sweeps <= limit
    ensures settled ==> Sweep(g, f) == f
    ensures !settled ==> sweeps == limit && forall k :: 0 < k <= limit ==> After(g, k) != After(g, k - 1)
  {
    f := Initial(g);
    sweeps := 0;
    var changed := true;
    var left := limit;
    while changed && left > 0
      invariant FlowFor(g, f) && f == After(g, sweeps) && sweeps + left == limit
      invariant !changed ==> Sweep(g, f) == f
      invariant changed ==> forall k :: 0 < k <= sweeps ==> After(g, k) != After(g, k - 1)
      decreases left
    {
      ghost var before := f;
      f, changed := SweepOnce(g, f);
      sweeps := sweeps + 1;
      left := left - 1;
    }
    settled := !changed;
  }

  ghost predicate DiffersAt(f: Flow, before: Flow, j: nat)
    requires |f.defs.into| == |before.defs.into| == |f.defs.out| == |before.defs.out| == |f.depth| == |before.depth|
  {
    j < |f.depth|
      && (f.defs.into[j] != before.defs.into[j] || f.defs.out[j] != before.defs.out[j] || f.depth[j] != before.depth[j])
  }

  /** The body of the sweep at one instruction: assign the cells that change, and note whether any does. */
  method Visit(g: Graph, now: Flow, index: nat) returns (f: Flow, changed: bool)
    requires WellFormed(g) && FlowFor(g, now) && index < |g.prog|
    ensures FlowFor(g, f) && f == Flow(DefsAt(g, now.defs, index), DepthAt(g, now.depth, index))
    ensures changed <==> DiffersAt(f, now, index)
    ensures f.defs.into == now.defs.into[index := f.defs.into[index]]
      && f.defs.out == now.defs.out[index := f.defs.out[index]]
    ensures f.depth == now.depth[index := f.depth[index]]
  {
    hide Meet, Join, Preds, Merge, Writes;
    changed := false;
    var into, out, depth := now.defs.into, now.defs.out, now.depth;
    var preds := Preds(g, index);
    var defs := MeetOver(preds, out, index);
    if defs != into[index] {
      into := into[index := defs];
      changed := true;
    }
    assert into == now.defs.into[index := defs];
    if defs.Some? {
      var merged := Merge(defs.value, Writes(g.prog[index].op));
      if merged != out[index] {
        out := out[index := merged];
        changed := true;
      }
      assert out == now.defs.out[index := merged];
      var d := if index == 0 then Some(0) else Join(g, depth, preds);
      if d != depth[index] {
        depth := depth[index := d];
        changed := true;
      }
      assert depth == now.depth[index := d];
    }
    f := Flow(Defs(into, out), depth);
  }

  method SweepOnce(g: Graph, before: Flow) returns (f: Flow, changed: bool)
    requires WellFormed(g) && FlowFor(g, before)
    ensures f == Sweep(g, before)
    ensures changed <==> f != before
  {
    hide DefsAt, DepthAt;
    changed := false;
    f := before;
    for index := 0 to |g.prog|
      invariant FlowFor(g, f)
      invariant DefsSweep(g, f.defs, index) == DefsSweep(g, before.defs, 0)
      invariant DepthSweep(g, f.depth, index) == DepthSweep(g, before.depth, 0)
      invariant forall j :: index <= j < |g.prog| ==> !DiffersAt(f, before, j)
      invariant changed <==> exists j :: 0 <= j < index && DiffersAt(f, before, j)
    {
      ghost var now := f;
      var here;
      f, here := Visit(g, f, index);
      assert forall j :: 0 <= j < |g.prog| && j != index ==> DiffersAt(f, before, j) == DiffersAt(now, before, j);
      assert !DiffersAt(now, before, index);
      assert here == DiffersAt(f, before, index);
      changed := changed || here;
    }
    if !changed {
      assert forall j :: 0 <= j < |g.prog| ==> !DiffersAt(f, before, j);
      forall j | 0 <= j < |g.prog|
        ensures f.defs.into[j] == before.defs.into[j] && f.defs.out[j] == before.defs.out[j]
          && f.depth[j] == before.depth[j]
      {
        assert !DiffersAt(f, before, j);
      }
      assert f.defs.into == before.defs.into && f.defs.out == before.defs.out && f.depth == before.depth;
    }
  }

  method MeetOver(ps: seq<nat>, out: seq<Registers>, index: nat) returns (defs: Option<Registers>)
    requires Below(ps, |out|)
    ensures defs == Meet(ps, out, Start(index))
  {
    defs := Start(index);
    for k := 0 to |ps|
      invariant defs == Meet(ps[..k], out, Start(index))
    {
      assert ps[..k + 1][..k] == ps[..k];
      defs := Some(match defs
                   case Some(current) => Intersect(current, out[ps[k]])
                   case None => out[ps[k]]);
    }
    assert ps[..|ps|] == ps;
  }
}
