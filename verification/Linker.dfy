/** Link closure: everything reachable from the roots, and why each node was kept. */
module Linker {
  import opened Wrappers

  datatype Reason =
    | DirectCall | RoutineAddress | StorageReference | AliasBacking | InitializerRelocation
    | MachineRelocation | EntryAlias | MachineFallthrough | RequiredPrefix | ConservativeLayout

  datatype Edge<N> = Edge(target: N, reason: Reason)

  datatype Links<N(==)> = Links(nodes: set<N>, edges: map<N, set<Edge<N>>>) {
    function From(n: N): set<Edge<N>> { if n in edges then edges[n] else {} }

    predicate Arrow(s: N, t: N, r: Reason) { Edge(t, r) in From(s) }
  }

  datatype Retention<N> = Root | Dependency(source: N, reason: Reason)

  datatype Selection<N(==)> = Selection(retained: set<N>, reasons: map<N, Retention<N>>)

  function SetOf<N>(s: seq<N>): set<N> { set n | n in s }

  // ----- what a closure is -----

  ghost predicate Sound<N(!new)>(g: Links<N>) {
    forall s, t, r :: g.Arrow(s, t, r) ==> s in g.nodes && t in g.nodes
  }

  ghost predicate Closed<N(!new)>(g: Links<N>, kept: set<N>) {
    forall s, t, r :: s in kept && g.Arrow(s, t, r) ==> t in kept
  }

  /** The least edge-closed set that contains the roots. */
  ghost predicate Least<N(!new)>(g: Links<N>, roots: set<N>, kept: set<N>) {
    && roots <= kept && Closed(g, kept)
    && forall other: set<N> :: roots <= other && Closed(g, other) ==> kept <= other
  }

  /** Why a node was kept: it is a root, or a kept node of smaller rank points to it for the recorded reason. */
  ghost predicate Explains<N(!new)>(g: Links<N>, roots: set<N>, s: Selection<N>, rank: map<N, nat>, n: N) {
    n in s.reasons && n in rank &&
    match s.reasons[n]
    case Root => n in roots
    case Dependency(source, reason) =>
      n !in roots && source in s.retained && source in rank && rank[source] < rank[n] && g.Arrow(source, n, reason)
  }

  ghost predicate Explained<N(!new)>(g: Links<N>, roots: set<N>, s: Selection<N>, rank: map<N, nat>) {
    s.reasons.Keys == s.retained && forall n :: n in s.retained ==> Explains(g, roots, s, rank, n)
  }

  // ----- consequences -----

  lemma LeastUnique<N(!new)>(g: Links<N>, roots: set<N>, a: set<N>, b: set<N>)
    requires Least(g, roots, a) && Least(g, roots, b)
    ensures a == b
  {
    assert a <= b && b <= a;
  }

  /** Closing a closed selection again adds nothing. */
  lemma ClosureIdempotent<N(!new)>(g: Links<N>, roots: set<N>, kept: set<N>, again: set<N>)
    requires Least(g, roots, kept) && Least(g, kept, again)
    ensures again == kept
  {
    assert again <= kept;
  }

  /** The closure of a union of roots is the union of the closures. */
  lemma ClosureOfUnion<N(!new)>(g: Links<N>, a: set<N>, b: set<N>, keptA: set<N>, keptB: set<N>, kept: set<N>)
    requires Least(g, a, keptA) && Least(g, b, keptB) && Least(g, a + b, kept)
    ensures kept == keptA + keptB
  {
    assert Closed(g, keptA + keptB);
    assert kept <= keptA + keptB;
    assert a <= kept && b <= kept;
  }

  /** Following recorded sources from any kept node ends at a root, along edges of the graph. */
  lemma {:induction false} ExplanationReachesRoot<N(!new)>(g: Links<N>, roots: set<N>, s: Selection<N>, rank: map<N,
      nat>, n: N)
    returns (chain: seq<N>)
    requires Explained(g, roots, s, rank) && n in s.retained
    ensures chain != [] && chain[0] in roots && chain[|chain| - 1] == n && |chain| <= rank[n] + 1
    ensures forall i, j :: 0 <= i < j < |chain| && j == i + 1 ==> Adjacent(g, chain[i], chain[j])
    decreases rank[n]
  {
    hide Least;
    assert Explains(g, roots, s, rank, n);
    if s.reasons[n].Root? {
      chain := [n];
    } else {
      var source, reason := s.reasons[n].source, s.reasons[n].reason;
      assert g.Arrow(source, n, reason);
      assert Adjacent(g, source, n);
      hide Explained, Explains;
      var before := ExplanationReachesRoot(g, roots, s, rank, source);
      chain := before + [n];
    }
  }

  ghost predicate Adjacent<N(!new)>(g: Links<N>, a: N, b: N) { exists r :: g.Arrow(a, b, r) }

  // ----- the graph and its worklist -----

  function Joined<N>(g: Links<N>, s: N, t: N, r: Reason): Links<N> {
    Links(g.nodes + {s, t}, g.edges[s := g.From(s) + {Edge(t, r)}])
  }

  lemma JoinedArrows<N(!new)>(g: Links<N>, s: N, t: N, r: Reason)
    ensures forall a, b, q :: Joined(g, s, t, r).Arrow(a, b, q) <==> g.Arrow(a, b, q) || (a == s && b == t && q == r)
    ensures Sound(g) ==> Sound(Joined(g, s, t, r))
    ensures Tidy(g) ==> Tidy(Joined(g, s, t, r))
  {
    var h := Joined(g, s, t, r);
    assert Edge(t, r) in h.edges[s];
    forall a, b, q
      ensures h.Arrow(a, b, q) <==> g.Arrow(a, b, q) || (a == s && b == t && q == r)
    {
    }
  }

  /** No source is listed without an edge. */
  ghost predicate Tidy<N>(g: Links<N>) { forall s :: s in g.edges ==> g.edges[s] != {} }

  /** Tidy graphs with the same nodes and edges are the same. */
  lemma SameLinks<N(!new)>(g: Links<N>, h: Links<N>)
    requires g.nodes == h.nodes && (forall s, t, r :: g.Arrow(s, t, r) <==> h.Arrow(s, t, r)) && Tidy(g) && Tidy(h)
    ensures g == h
  {
    forall s
      ensures g.From(s) == h.From(s)
    {
      forall e: Edge<N>
        ensures e in g.From(s) <==> e in h.From(s)
      {
        assert g.Arrow(s, e.target, e.reason) <==> h.Arrow(s, e.target, e.reason);
      }
    }
    assert g.edges.Keys == h.edges.Keys by {
      forall s ensures s in g.edges <==> s in h.edges { assert g.From(s) == h.From(s); }
    }
    forall s | s in g.edges ensures g.edges[s] == h.edges[s] { assert g.From(s) == h.From(s); }
    assert g.edges == h.edges;
  }

  class LinkGraph<N(==, !new)> {
    var links: Links<N>

    constructor ()
      ensures links == Links({}, map[])
    {
      links := Links({}, map[]);
    }

    /** One more node, and every edge as before. */
    method AddNode(n: N)
      modifies this
      ensures links.nodes == old(links).nodes + {n}
      ensures forall a, b, q :: links.Arrow(a, b, q) <==> old(links).Arrow(a, b, q)
      ensures Tidy(old(links)) ==> Tidy(links)
    {
      links := links.(nodes := links.nodes + {n});
    }

    /** One more edge, and both its ends are nodes; every other edge as before. */
    method AddEdge(s: N, t: N, r: Reason)
      modifies this
      ensures links.nodes == old(links).nodes + {s, t}
      ensures forall a, b, q :: links.Arrow(a, b, q) <==> old(links).Arrow(a, b, q) || (a == s && b == t && q == r)
      ensures Tidy(old(links)) ==> Tidy(links)
      ensures Sound(old(links)) ==> Sound(links)
    {
      hide Sound;
      JoinedArrows(links, s, t, r);
      links := Joined(links, s, t, r);
    }

    /**
     * Drain the pending nodes in any order. The result is the least closed set over the roots with an explanation for
     * every node, or the first root that is not a node of the graph.
     */
    method Closure(roots: seq<N>) returns (r: Result<Selection<N>, N>, ghost rank: map<N, nat>)
      requires Sound(links)
      ensures var g := links;
        var wanted := SetOf(roots);
        match r
        case Ok(s) => wanted <= g.nodes && s.retained <= g.nodes && Least(g, wanted, s.retained) && Explained(g, wanted, s, rank)
        case Err(n) => exists k :: 0 <= k < |roots| && roots[k] == n && n !in g.nodes && forall i :: 0 <= i < k ==> roots[i] in g.nodes
    {
      hide Sound, Work, Least, Explained;
      var g := links;
      ghost var wanted := SetOf(roots);
      var pending: set<N>, retained: set<N>, reasons: map<N, Retention<N>> := {}, {}, map[];
      rank := map[];
      for k := 0 to |roots|
        invariant forall i :: 0 <= i < k ==> roots[i] in g.nodes
        invariant SeededBy(roots[..k], pending, reasons, rank)
      {
        if roots[k] !in g.nodes {
          return Err(roots[k]), map[];
        }
        assert roots[..k + 1] == roots[..k] + [roots[k]];
        pending := pending + {roots[k]};
        if roots[k] !in reasons { reasons := reasons[roots[k] := Root]; }
        rank := rank[roots[k] := 0];
      }
      assert roots[..|roots|] == roots;
      Seeded(g, roots, pending, reasons, rank);
      while pending != {}
        invariant Work(g, wanted, pending, retained, reasons, rank) && retained <= g.nodes
        decreases g.nodes - retained, pending
      {
        var source :| source in pending;
        ghost var before := pending;
        pending := pending - {source};
        assert pending + {source} == before;
        if source in retained {
          Revisit(g, wanted, source, pending, retained, reasons, rank);
        } else {
          Retain(g, wanted, source, pending, retained, reasons, rank);
          retained := retained + {source};
          pending, reasons, rank := Visit(g, wanted, source, pending, retained, reasons, rank);
        }
      }
      r := Ok(Selection(retained, reasons));
      Drained(g, wanted, retained, reasons, rank);
    }
  }

  ghost predicate SeededBy<N(!new)>(roots: seq<N>, pending: set<N>, reasons: map<N, Retention<N>>, rank: map<N, nat>) {
    && pending == reasons.Keys == rank.Keys
    && (forall n :: n in pending <==> n in roots)
    && forall n :: n in reasons ==> reasons[n] == Root && rank[n] == 0
  }

  lemma Seeded<N(!new)>(g: Links<N>, roots: seq<N>, pending: set<N>, reasons: map<N, Retention<N>>, rank: map<N, nat>)
    requires SeededBy(roots, pending, reasons, rank) && forall i :: 0 <= i < |roots| ==> roots[i] in g.nodes
    ensures Work(g, SetOf(roots), pending, {}, reasons, rank)
  {
    hide Closed;
    var wanted := SetOf(roots);
    assert pending == wanted;
    forall n | n in reasons
      ensures ExplainedSoFar(g, wanted, {}, reasons, rank, n)
    {
    }
  }

  lemma Revisit<N(!new)>(g: Links<N>, roots: set<N>, source: N, pending: set<N>, retained: set<N>, reasons: map<N,
      Retention<N>>, rank: map<N, nat>)
    requires source in retained && source !in pending && Work(g, roots, pending + {source}, retained, reasons, rank)
    ensures Work(g, roots, pending, retained, reasons, rank)
  {
    hide Closed, ExplainedSoFar;
  }

  lemma Retain<N(!new)>(g: Links<N>, roots: set<N>, source: N, pending: set<N>, retained: set<N>, reasons: map<N,
      Retention<N>>, rank: map<N, nat>)
    requires source !in retained && source !in pending && Work(g, roots, pending + {source}, retained, reasons, rank)
    ensures Partial(g, roots, pending, retained + {source}, reasons, rank, set e | e in g.From(source) :: (source, e))
  {
    hide Closed;
    forall n | n in reasons
      ensures ExplainedSoFar(g, roots, retained + {source}, reasons, rank, n)
    {
      assert ExplainedSoFar(g, roots, retained, reasons, rank, n);
    }
  }

  /** Invariant of the worklist. */
  ghost predicate Work<N(!new)>(g: Links<N>, roots: set<N>, pending: set<N>, retained: set<N>,
      reasons: map<N, Retention<N>>, rank: map<N, nat>) {
    Partial(g, roots, pending, retained, reasons, rank, {})
  }

  /** As `Work`, but the edges in `todo` of retained nodes are still unfollowed. */
  ghost predicate Partial<N(!new)>(g: Links<N>, roots: set<N>, pending: set<N>, retained: set<N>,
      reasons: map<N, Retention<N>>, rank: map<N, nat>, todo: set<(N, Edge<N>)>) {
    && pending <= g.nodes && retained <= g.nodes && roots <= g.nodes
    && reasons.Keys == retained + pending && rank.Keys == reasons.Keys && roots <= reasons.Keys
    && (forall s, t, q :: s in retained && g.Arrow(s, t, q) && (s, Edge(t, q)) !in todo ==> t in reasons.Keys)
    && (forall n :: n in reasons ==> ExplainedSoFar(g, roots, retained, reasons, rank, n))
    && forall other: set<N> :: roots <= other && Closed(g, other) ==> reasons.Keys <= other
  }

  ghost predicate ExplainedSoFar<N(!new)>(g: Links<N>, roots: set<N>, retained: set<N>,
      reasons: map<N, Retention<N>>, rank: map<N, nat>, n: N) {
    n in reasons && n in rank &&
    match reasons[n]
    case Root => n in roots
    case Dependency(source, reason) =>
      n !in roots && source in retained && source in rank && rank[source] < rank[n] && g.Arrow(source, n, reason)
  }

  /** Follow the edges of one newly retained node. */
  method Visit<N(==, !new)>(g: Links<N>, ghost roots: set<N>, source: N, pending0: set<N>, retained: set<N>,
      reasons0: map<N, Retention<N>>, ghost rank0: map<N, nat>)
    returns (pending: set<N>, reasons: map<N, Retention<N>>, ghost rank: map<N, nat>)
    requires Sound(g) && source in retained
    requires Partial(g, roots, pending0, retained, reasons0, rank0, set e | e in g.From(source) :: (source, e))
    ensures Work(g, roots, pending, retained, reasons, rank) && retained <= g.nodes
  {
    pending, reasons, rank := pending0, reasons0, rank0;
    var left := g.From(source);
    while left != {}
      invariant left <= g.From(source)
      invariant Partial(g, roots, pending, retained, reasons, rank, set e | e in left :: (source, e))
      decreases left
    {
      var edge :| edge in left;
      assert g.Arrow(source, edge.target, edge.reason);
      Follow(g, roots, source, edge, left, pending, retained, reasons, rank);
      left := left - {edge};
      if edge.target !in retained {
        if edge.target !in reasons {
          reasons := reasons[edge.target := Dependency(source, edge.reason)];
          rank := rank[edge.target := rank[source] + 1];
        }
        pending := pending + {edge.target};
      }
    }
  }

  lemma Follow<N(!new)>(g: Links<N>, roots: set<N>, source: N, edge: Edge<N>, left: set<Edge<N>>, pending: set<N>,
      retained: set<N>, reasons: map<N, Retention<N>>, rank: map<N, nat>)
    requires Sound(g) && source in retained && edge in left && left <= g.From(source)
    requires Partial(g, roots, pending, retained, reasons, rank, set e | e in left :: (source, e))
    ensures var next := left - {edge};
      var todo := set e | e in next :: (source, e);
      var t := edge.target;
      if t in retained then Partial(g, roots, pending, retained, reasons, rank, todo)
      else if t in reasons then Partial(g, roots, pending + {t}, retained, reasons, rank, todo)
      else Partial(g, roots, pending + {t}, retained, reasons[t := Dependency(source, edge.reason)], rank[t := rank[source] + 1], todo)
  {
    assert g.Arrow(source, edge.target, edge.reason);
    forall other: set<N> | roots <= other && Closed(g, other)
      ensures edge.target in other
    {
      assert source in other;
    }
    var t := edge.target;
    var todo := set e | e in left - {edge} :: (source, e);
    forall s, u, q | s in retained && g.Arrow(s, u, q) && (s, Edge(u, q)) !in todo
      ensures u in reasons.Keys || u == t
    {
      if (s, Edge(u, q)) in (set e | e in left :: (source, e)) { assert Edge(u, q) == edge; }
    }
    if t !in reasons {
      var reasons2, rank2 := reasons[t := Dependency(source, edge.reason)], rank[t := rank[source] + 1];
      forall n | n in reasons2
        ensures ExplainedSoFar(g, roots, retained, reasons2, rank2, n)
      {
        if n != t { assert ExplainedSoFar(g, roots, retained, reasons, rank, n); }
      }
    }
  }

  lemma Drained<N(!new)>(g: Links<N>, roots: set<N>, retained: set<N>, reasons: map<N, Retention<N>>, rank: map<N, nat>)
    requires Work(g, roots, {}, retained, reasons, rank)
    ensures Least(g, roots, retained) && Explained(g, roots, Selection(retained, reasons), rank)
  {
    var s := Selection(retained, reasons);
    forall n | n in retained
      ensures Explains(g, roots, s, rank, n)
    {
      assert ExplainedSoFar(g, roots, retained, reasons, rank, n);
    }
  }
}
