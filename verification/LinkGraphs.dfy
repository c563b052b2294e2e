/** The link graph of a program: which items refer to which, and which modules must stay whole. */
module LinkGraphs {
  import opened Wrappers
  import opened Linker

  // ----- programs, down to the symbols their items mention -----

  /** The part of a statement or expression the linker looks at. */
  datatype Tree =
    | Leaf
    | Opaque                                       // raw text, unresolved names, machine code
    | Named(symbol: nat)                           // a symbol, or its address, as a value
    | Place(symbol: nat)                           // a symbol as a place in memory
    | Direct(symbol: nat, reason: Reason)          // a callee, an initializer's address, a machine reference
    | Inherit(children: seq<Tree>)
    | Under(reason: Reason, children: seq<Tree>)   // children referred to for a reason of their own

  datatype Item =
    | Routine(id: nat, parts: seq<Tree>)
    | Declaration(id: nat, layoutOnly: bool, parts: seq<Tree>)   // layoutOnly: a type, record or enumeration
    | TopLevel(parts: seq<Tree>)                                 // a statement or memory directive outside any routine
    | Neutral                                                    // defines, constants, includes

  datatype Module = Module(id: Option<nat>, items: seq<Item>)

  datatype Program = Program(modules: seq<Module>, root: Option<nat>, entry: Option<nat>)

  datatype Node = RoutineNode(id: nat) | StorageNode(id: nat) | TopNode(home: Option<nat>, ordinal: nat)

  datatype Entry = Entry(owner: Node, home: Option<nat>, always: bool, parts: seq<Tree>)

  function Ordinal(items: seq<Item>): nat {
    if items == [] then 0 else Ordinal(items[..|items| - 1]) + if items[|items| - 1].TopLevel? then 1 else 0
  }

  /** The node an item stands for, given the items before it in its module. */
  function EntryOf(home: Option<nat>, before: seq<Item>, item: Item): Option<Entry> {
    match item
    case Routine(id, parts) => Some(Entry(RoutineNode(id), home, false, parts))
    case Declaration(id, layoutOnly, parts) => Some(Entry(StorageNode(id), home, layoutOnly, parts))
    case TopLevel(parts) => Some(Entry(TopNode(home, Ordinal(before)), home, false, parts))
    case Neutral => None
  }

  function Listed(e: Option<Entry>): seq<Entry> { if e.Some? then [e.value] else [] }

  function ModuleEntries(home: Option<nat>, items: seq<Item>): seq<Entry> {
    if items == [] then []
    else
      var init := items[..|items| - 1];
      ModuleEntries(home, init) + Listed(EntryOf(home, init, items[|items| - 1]))
  }

  function Entries(modules: seq<Module>): seq<Entry> {
    if modules == [] then []
    else Entries(modules[..|modules| - 1]) + ModuleEntries(modules[|modules| - 1].id, modules[|modules| - 1].items)
  }

  // ----- references -----

  datatype Ids = Ids(routines: set<nat>, storage: set<nat>)

  function IdsOf(entries: seq<Entry>): Ids {
    Ids(set e | e in entries && e.owner.RoutineNode? :: e.owner.id, set e | e in entries && e.owner.StorageNode? :: e.owner.id)
  }

  /** A symbol names the routine with its id if there is one, else the storage. */
  function Resolve(ids: Ids, symbol: nat): Option<Node> {
    if symbol in ids.routines then Some(RoutineNode(symbol))
    else if symbol in ids.storage then Some(StorageNode(symbol))
    else None
  }

  predicate Mentions(tree: Tree, ids: Ids, inherited: Reason, t: Node, r: Reason) {
    match tree
    case Leaf | Opaque => false
    case Named(symbol) => Resolve(ids, symbol) == Some(t) && r == if symbol in ids.routines then RoutineAddress else inherited
    case Place(symbol) => Resolve(ids, symbol) == Some(t) && r == inherited
    case Direct(symbol, reason) => Resolve(ids, symbol) == Some(t) && r == reason
    case Inherit(children) => Refers(children, ids, inherited, t, r)
    case Under(reason, children) => Refers(children, ids, reason, t, r)
  }

  predicate Refers(trees: seq<Tree>, ids: Ids, inherited: Reason, t: Node, r: Reason) {
    exists c :: c in trees && Mentions(c, ids, inherited, t, r)
  }

  predicate Hides(tree: Tree) {
    match tree
    case Opaque => true
    case Inherit(children) => Conceals(children)
    case Under(_, children) => Conceals(children)
    case _ => false
  }

  predicate Conceals(trees: seq<Tree>) { exists c :: c in trees && Hides(c) }

  lemma InSnoc<T>(s: seq<T>, last: T, x: T)
    ensures x in s + [last] <==> x in s || x == last
  {
    assert (s + [last])[|s|] == last;
  }

  lemma {:induction false} RefersBy(trees: seq<Tree>, c: Tree, ids: Ids, inherited: Reason, t: Node, r: Reason)
    requires c in trees && Mentions(c, ids, inherited, t, r)
    ensures Refers(trees, ids, inherited, t, r)
  {
    hide Mentions;
  }

  lemma {:induction false} RefersFrom(trees: seq<Tree>, ids: Ids, inherited: Reason, t: Node, r: Reason)
    returns (c: Tree)
    requires Refers(trees, ids, inherited, t, r)
    ensures c in trees && Mentions(c, ids, inherited, t, r)
  {
    hide Mentions;
    c :| c in trees && Mentions(c, ids, inherited, t, r);
  }

  lemma {:induction false} RefersSnoc(trees: seq<Tree>, last: Tree, ids: Ids, inherited: Reason, t: Node, r: Reason)
    ensures Refers(trees + [last], ids, inherited, t, r) <==>
      Refers(trees, ids, inherited, t, r) || Mentions(last, ids, inherited, t, r)
  {
    hide Mentions, Refers;
    var more := trees + [last];
    if Refers(more, ids, inherited, t, r) {
      var c := RefersFrom(more, ids, inherited, t, r);
      InSnoc(trees, last, c);
      if c in trees { RefersBy(trees, c, ids, inherited, t, r); }
    }
    if Mentions(last, ids, inherited, t, r) {
      InSnoc(trees, last, last);
      RefersBy(more, last, ids, inherited, t, r);
    }
    if Refers(trees, ids, inherited, t, r) {
      var c := RefersFrom(trees, ids, inherited, t, r);
      InSnoc(trees, last, c);
      RefersBy(more, c, ids, inherited, t, r);
    }
  }

  lemma {:induction false} ConcealsSnoc(trees: seq<Tree>, last: Tree)
    ensures Conceals(trees + [last]) <==> Conceals(trees) || Hides(last)
  {
    hide Hides;
    var more := trees + [last];
    forall c ensures c in more <==> c in trees || c == last { InSnoc(trees, last, c); }
    if Hides(last) { assert last in more; }
  }

  // ----- the graph, as a specification -----

  ghost predicate ArrowFrom(entries: seq<Entry>, ids: Ids, s: Node, t: Node, r: Reason) {
    s != t && exists e :: e in entries && e.owner == s && Refers(e.parts, ids, StorageReference, t, r)
  }

  ghost predicate SymbolArrow(entries: seq<Entry>, s: Node, t: Node, r: Reason) {
    ArrowFrom(entries, IdsOf(entries), s, t, r)
  }

  /** An item with hidden contents keeps every other item of its module. */
  ghost predicate LayoutArrow(entries: seq<Entry>, s: Node, t: Node) {
    s != t && exists e, f :: e in entries && f in entries && e.owner == s && f.owner == t && e.home == f.home && Hidden(entries, s)
  }

  ghost predicate Hidden(entries: seq<Entry>, s: Node) { exists e :: e in entries && e.owner == s && Conceals(e.parts) }

  ghost predicate IsNode(entries: seq<Entry>, n: Node) { exists e :: e in entries && e.owner == n }

  ghost predicate GraphOf(entries: seq<Entry>, g: Links<Node>) {
    && (forall n :: n in g.nodes <==> IsNode(entries, n))
    && forall s, t, r :: g.Arrow(s, t, r) <==>
         SymbolArrow(entries, s, t, r) || (r == ConservativeLayout && LayoutArrow(entries, s, t))
  }

  /** Symbols are declared in one module only. */
  ghost predicate OneHome(entries: seq<Entry>) {
    forall e, f :: e in entries && f in entries && e.owner == f.owner ==> e.home == f.home
  }

  // ----- building it -----

  method Flatten(modules: seq<Module>) returns (entries: seq<Entry>)
    ensures entries == Entries(modules)
  {
    entries := [];
    for m := 0 to |modules|
      invariant entries == Entries(modules[..m])
    {
      assert modules[..m + 1][..m] == modules[..m];
      var home, items, topLevel := modules[m].id, modules[m].items, 0;
      ghost var before := entries;
      var here: seq<Entry> := [];
      for k := 0 to |items|
        invariant topLevel == Ordinal(items[..k]) && here == ModuleEntries(home, items[..k])
      {
        assert items[..k + 1][..k] == items[..k];
        match items[k] {
          case Routine(id, parts) => here := here + [Entry(RoutineNode(id), home, false, parts)];
          case Declaration(id, layoutOnly, parts) => here := here + [Entry(StorageNode(id), home, layoutOnly, parts)];
          case TopLevel(parts) =>
            here := here + [Entry(TopNode(home, topLevel), home, false, parts)];
            topLevel := topLevel + 1;
          case Neutral =>
        }
      }
      assert items[..|items|] == items;
      entries := entries + here;
    }
    assert modules[..|modules|] == modules;
  }

  class GraphBuilder {
    const graph: LinkGraph<Node>
    const ids: Ids
    var opaqueOwners: set<Node>

    constructor (graph: LinkGraph<Node>, ids: Ids)
      ensures this.graph == graph && this.ids == ids && opaqueOwners == {}
    {
      this.graph, this.ids, opaqueOwners := graph, ids, {};
    }

    ghost predicate Ready(owner: Node)
      reads graph
    {
      owner in graph.links.nodes && forall x, n :: Resolve(ids, x) == Some(n) ==> n in graph.links.nodes
    }

    /** Add an edge to what a symbol names, unless it names nothing or the owner itself. */
    method Symbol(owner: Node, symbol: nat, reason: Reason)
      requires Ready(owner)
      modifies graph
      ensures graph.links.nodes == old(graph.links).nodes && Ready(owner)
      ensures forall s, t, r :: graph.links.Arrow(s, t, r) <==>
        (old(graph.links).Arrow(s, t, r) || (s == owner && t != owner && Resolve(ids, symbol) == Some(t) && r == reason))
    {
      var target := Resolve(ids, symbol);
      if target.Some? && target.value != owner {
        ghost var nodes := graph.links.nodes;
        graph.AddEdge(owner, target.value, reason);
        assert graph.links.nodes == nodes;
      }
    }

    method Walk(owner: Node, tree: Tree, inherited: Reason)
      requires Ready(owner)
      modifies graph, this`opaqueOwners
      ensures graph.links.nodes == old(graph.links).nodes && Ready(owner)
      ensures forall s, t, r :: graph.links.Arrow(s, t, r) <==>
        (old(graph.links).Arrow(s, t, r) || (s == owner && t != owner && Mentions(tree, ids, inherited, t, r)))
      ensures opaqueOwners == old(opaqueOwners) + if Hides(tree) then {owner} else {}
      decreases tree, 1
    {
      match tree
      case Leaf =>
      case Opaque => opaqueOwners := opaqueOwners + {owner};
      case Named(symbol) => Symbol(owner, symbol, if symbol in ids.routines then RoutineAddress else inherited);
      case Place(symbol) => Symbol(owner, symbol, inherited);
      case Direct(symbol, reason) => Symbol(owner, symbol, reason);
      case Inherit(children) => WalkAll(owner, children, inherited);
      case Under(reason, children) => WalkAll(owner, children, reason);
    }

    method WalkAll(owner: Node, children: seq<Tree>, inherited: Reason)
      requires Ready(owner)
      modifies graph, this`opaqueOwners
      ensures graph.links.nodes == old(graph.links).nodes && Ready(owner)
      ensures forall s, t, r :: graph.links.Arrow(s, t, r) <==>
        (old(graph.links).Arrow(s, t, r) || (s == owner && t != owner && Refers(children, ids, inherited, t, r)))
      ensures opaqueOwners == old(opaqueOwners) + if Conceals(children) then {owner} else {}
      decreases children, 0
    {
      for k := 0 to |children|
        invariant graph.links.nodes == old(graph.links).nodes && Ready(owner)
        invariant forall s, t, r :: graph.links.Arrow(s, t, r) <==>
          (old(graph.links).Arrow(s, t, r) || (s == owner && t != owner && Refers(children[..k], ids, inherited, t, r)))
        invariant opaqueOwners == old(opaqueOwners) + if Conceals(children[..k]) then {owner} else {}
      {
        hide Mentions, Hides, Resolve, Refers, Conceals;
        Walk(owner, children[k], inherited);
        assert children[..k + 1] == children[..k] + [children[k]];
        forall t, r {
          RefersSnoc(children[..k], children[k], ids, inherited, t, r);
        }
        ConcealsSnoc(children[..k], children[k]);
      }
      assert children[..|children|] == children;
    }
  }

  lemma NodesSnoc(entries: seq<Entry>, last: Entry)
    ensures forall n :: IsNode(entries + [last], n) <==> IsNode(entries, n) || n == last.owner
    ensures forall e :: e in entries + [last] <==> e in entries || e == last
  {
    var more := entries + [last];
    forall e ensures e in more <==> e in entries || e == last { InSnoc(entries, last, e); }
    assert last in more;
  }

  lemma ArrowFromSnoc(entries: seq<Entry>, last: Entry, ids: Ids, s: Node, t: Node, r: Reason)
    ensures ArrowFrom(entries + [last], ids, s, t, r) <==>
      ArrowFrom(entries, ids, s, t, r) || (s == last.owner && t != s && Refers(last.parts, ids, StorageReference, t, r))
  {
    hide Refers;
    NodesSnoc(entries, last);
    assert last in entries + [last];
  }

  lemma HiddenSnoc(entries: seq<Entry>, last: Entry, s: Node)
    ensures Hidden(entries + [last], s) <==> Hidden(entries, s) || (s == last.owner && Conceals(last.parts))
  {
    hide Conceals;
    NodesSnoc(entries, last);
    assert last in entries + [last];
  }

  lemma IdsAreNodes(entries: seq<Entry>)
    ensures forall x, n :: Resolve(IdsOf(entries), x) == Some(n) ==> IsNode(entries, n)
  {
    forall x, n | Resolve(IdsOf(entries), x) == Some(n)
      ensures IsNode(entries, n)
    {
      var e :| e in entries && e.owner == n;
    }
  }

  ghost predicate Pulled(owners: set<Node>, homes: map<Node, Option<nat>>, s: Node, t: Node) {
    s in owners && s in homes && t in homes && t != s && homes[t] == homes[s]
  }

  /** Edges from each hidden owner to the rest of its module. */
  method AddLayout(graph: LinkGraph<Node>, owners: set<Node>, homes: map<Node, Option<nat>>)
    requires homes.Keys == graph.links.nodes && owners <= homes.Keys
    modifies graph
    ensures graph.links.nodes == old(graph.links).nodes
    ensures forall s, t, r :: graph.links.Arrow(s, t, r) <==>
      old(graph.links).Arrow(s, t, r) || (r == ConservativeLayout && Pulled(owners, homes, s, t))
  {
    var left := owners;
    while left != {}
      invariant left <= owners && graph.links.nodes == homes.Keys
      invariant forall s, t, r :: graph.links.Arrow(s, t, r) <==>
        old(graph.links).Arrow(s, t, r) || (r == ConservativeLayout && Pulled(owners - left, homes, s, t))
      decreases left
    {
      var owner :| owner in left;
      AddModule(graph, owner, homes);
      left := left - {owner};
      assert forall s, t :: Pulled(owners - left, homes, s, t) <==>
        Pulled(owners - (left + {owner}), homes, s, t) || Pulled({owner}, homes, s, t);
      assert owners - (left + {owner}) == owners - left - {owner};
    }
  }

  /** Edges from one hidden owner to the rest of its module. */
  method AddModule(graph: LinkGraph<Node>, owner: Node, homes: map<Node, Option<nat>>)
    requires homes.Keys == graph.links.nodes && owner in homes
    modifies graph
    ensures graph.links.nodes == old(graph.links).nodes
    ensures forall s, t, r :: graph.links.Arrow(s, t, r) <==>
      old(graph.links).Arrow(s, t, r) || (r == ConservativeLayout && Pulled({owner}, homes, s, t))
  {
    var targets := homes.Keys;
    while targets != {}
      invariant targets <= homes.Keys && graph.links.nodes == homes.Keys
      invariant forall s, t, r :: graph.links.Arrow(s, t, r) <==>
        old(graph.links).Arrow(s, t, r) || (r == ConservativeLayout && t !in targets && Pulled({owner}, homes, s, t))
      decreases targets
    {
      var target :| target in targets;
      targets := targets - {target};
      if target != owner && homes[target] == homes[owner] {
        graph.AddEdge(owner, target, ConservativeLayout);
        assert graph.links.nodes == homes.Keys;
      }
    }
  }

  lemma PulledIsLayout(entries: seq<Entry>, owners: set<Node>, homes: map<Node, Option<nat>>, s: Node, t: Node)
    requires OneHome(entries) && forall n :: n in homes <==> IsNode(entries, n)
    requires forall e :: e in entries ==> e.owner in homes && homes[e.owner] == e.home
    requires forall n :: n in owners <==> Hidden(entries, n)
    ensures Pulled(owners, homes, s, t) <==> LayoutArrow(entries, s, t)
  {
    hide Conceals;
    if Pulled(owners, homes, s, t) {
      var e :| e in entries && e.owner == s;
      var f :| f in entries && f.owner == t;
      assert e.home == f.home;
    }
  }

  /** The graph with its nodes but no edges yet, and the module each node belongs to. */
  method CollectNodes(entries: seq<Entry>) returns (graph: LinkGraph<Node>, homes: map<Node, Option<nat>>)
    requires OneHome(entries)
    ensures fresh(graph) && graph.links.nodes == homes.Keys && forall s, t, r :: !graph.links.Arrow(s, t, r)
    ensures forall n :: n in homes <==> IsNode(entries, n)
    ensures forall e :: e in entries ==> e.owner in homes && homes[e.owner] == e.home
  {
    graph := new LinkGraph<Node>();
    homes := map[];
    for k := 0 to |entries|
      invariant fresh(graph) && graph.links.nodes == homes.Keys && forall s, t, r :: !graph.links.Arrow(s, t, r)
      invariant forall n :: n in homes <==> IsNode(entries[..k], n)
      invariant forall e :: e in entries[..k] ==> e.owner in homes && homes[e.owner] == e.home
    {
      assert entries[..k + 1] == entries[..k] + [entries[k]];
      graph.AddNode(entries[k].owner);
      homes := homes[entries[k].owner := entries[k].home];
      NodesSnoc(entries[..k], entries[k]);
    }
    assert entries[..|entries|] == entries;
  }

  method BuildGraph(entries: seq<Entry>) returns (g: Links<Node>)
    requires OneHome(entries)
    ensures GraphOf(entries, g) && Sound(g)
  {
    hide Mentions, Hides, Refers, Conceals, ArrowFrom, Hidden, LayoutArrow;
    var graph, homes := CollectNodes(entries);
    hide OneHome;
    ghost var nodes := homes.Keys;
    var ids := IdsOf(entries);
    var builder := new GraphBuilder(graph, ids);
    IdsAreNodes(entries);
    NothingFrom(ids);
    for k := 0 to |entries|
      invariant graph.links.nodes == nodes
      invariant forall x, n :: Resolve(ids, x) == Some(n) ==> n in nodes
      invariant forall s, t, r :: graph.links.Arrow(s, t, r) <==> ArrowFrom(entries[..k], ids, s, t, r)
      invariant forall s :: s in builder.opaqueOwners <==> Hidden(entries[..k], s)
    {
      hide Resolve;
      var e := entries[k];
      assert IsNode(entries, e.owner);
      assert entries[..k + 1] == entries[..k] + [e];
      builder.WalkAll(e.owner, e.parts, StorageReference);
      forall s, t, r { ArrowFromSnoc(entries[..k], e, ids, s, t, r); }
      forall s { HiddenSnoc(entries[..k], e, s); }
    }
    assert entries[..|entries|] == entries;
    var owners := builder.opaqueOwners;
    forall s | s in owners ensures s in homes.Keys { HiddenIsNode(entries, s); }
    AddLayout(graph, owners, homes);
    g := graph.links;
    forall s, t { PulledIsLayout(entries, owners, homes, s, t); }
    hide Pulled;
    GraphSound(entries, g);
  }

  lemma NothingFrom(ids: Ids)
    ensures forall s, t, r :: !ArrowFrom([], ids, s, t, r)
    ensures forall s :: !Hidden([], s)
  {
  }

  lemma HiddenIsNode(entries: seq<Entry>, s: Node)
    requires Hidden(entries, s)
    ensures IsNode(entries, s)
  {
  }

  lemma GraphSound(entries: seq<Entry>, g: Links<Node>)
    requires GraphOf(entries, g)
    ensures Sound(g)
  {
    forall s, t, r | g.Arrow(s, t, r)
      ensures s in g.nodes && t in g.nodes
    {
      if SymbolArrow(entries, s, t, r) {
        var e :| e in entries && e.owner == s && Refers(e.parts, IdsOf(entries), StorageReference, t, r);
        RefersResolved(e.parts, IdsOf(entries), StorageReference, t, r);
        IdsAreNodes(entries);
      }
    }
  }

  lemma {:induction false} RefersResolved(trees: seq<Tree>, ids: Ids, inherited: Reason, t: Node, r: Reason)
    requires Refers(trees, ids, inherited, t, r)
    ensures exists x :: Resolve(ids, x) == Some(t)
    decreases trees
  {
    var c :| c in trees && Mentions(c, ids, inherited, t, r);
    match c
    case Named(x) => assert Resolve(ids, x) == Some(t);
    case Place(x) => assert Resolve(ids, x) == Some(t);
    case Direct(x, _) => assert Resolve(ids, x) == Some(t);
    case Inherit(children) => RefersResolved(children, ids, inherited, t, r);
    case Under(reason, children) => RefersResolved(children, ids, reason, t, r);
  }
}
