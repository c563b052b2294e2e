/** Selecting the linked part of a program: what is kept, and that selecting again changes nothing. */
module LinkSelect {
  import opened Wrappers
  import opened Linker
  import opened LinkGraphs

  datatype Policy = RetainAll | EntryReachable

  // ----- roots -----

  ghost predicate IsRoot(p: Program, policy: Policy, g: Links<Node>, n: Node) {
    match policy
    case RetainAll => n in g.nodes
    case EntryReachable =>
      || (n in g.nodes && n.TopNode? && n.home == p.root)
      || (n.StorageNode? && exists t: Node :: t.RoutineNode? && g.Arrow(n, t, InitializerRelocation))
      || (p.entry.Some? && n == RoutineNode(p.entry.value))
  }

  // ----- filtering -----

  predicate Keeps(home: Option<nat>, before: seq<Item>, item: Item, kept: set<Node>) {
    match item
    case Routine(id, _) => RoutineNode(id) in kept
    case Declaration(id, layoutOnly, _) => layoutOnly || StorageNode(id) in kept
    case TopLevel(_) => TopNode(home, Ordinal(before)) in kept
    case Neutral => true
  }

  function FilterItems(home: Option<nat>, items: seq<Item>, kept: set<Node>): seq<Item> {
    if items == [] then []
    else
      var init, last := items[..|items| - 1], items[|items| - 1];
      FilterItems(home, init, kept) + if Keeps(home, init, last, kept) then [last] else []
  }

  function FilterModule(m: Module, kept: set<Node>): Module { m.(items := FilterItems(m.id, m.items, kept)) }

  function Filtered(p: Program, kept: set<Node>): Program {
    p.(modules := seq(|p.modules|, i requires 0 <= i < |p.modules| => FilterModule(p.modules[i], kept)))
  }

  predicate HasRoutine(modules: seq<Module>, id: nat) {
    exists m :: m in modules && exists item :: item in m.items && item.Routine? && item.id == id
  }

  ghost predicate RootsAre(p: Program, policy: Policy, g: Links<Node>, roots: set<Node>) {
    forall n :: n in roots <==> IsRoot(p, policy, g, n)
  }

  ghost predicate Chosen(p: Program, policy: Policy, kept: set<Node>, g: Links<Node>, roots: set<Node>) {
    GraphOf(Entries(p.modules), g) && RootsAre(p, policy, g, roots) && roots <= g.nodes && Least(g, roots, kept)
  }

  /** What a selection keeps: the closure of its roots in the program's graph. */
  ghost predicate Selects(p: Program, policy: Policy, kept: set<Node>) {
    exists g, roots :: Chosen(p, policy, kept, g, roots)
  }

  // ----- the selection as it runs -----

  method KeepItems(home: Option<nat>, items: seq<Item>, kept: set<Node>) returns (out: seq<Item>)
    ensures out == FilterItems(home, items, kept)
  {
    out := [];
    var topLevel := 0;
    for k := 0 to |items|
      invariant out == FilterItems(home, items[..k], kept) && topLevel == Ordinal(items[..k])
    {
      assert items[..k + 1][..k] == items[..k];
      var keep;
      match items[k] {
        case Routine(id, _) => keep := RoutineNode(id) in kept;
        case Declaration(id, layoutOnly, _) => keep := layoutOnly || StorageNode(id) in kept;
        case TopLevel(_) =>
          keep := TopNode(home, topLevel) in kept;
          topLevel := topLevel + 1;
        case Neutral => keep := true;
      }
      if keep { out := out + [items[k]]; }
    }
    assert items[..|items|] == items;
  }

  /** The roots as a list without repetitions, in any order. */
  method Roots(p: Program, policy: Policy, g: Links<Node>) returns (roots: seq<Node>)
    requires Sound(g)
    ensures forall n :: n in roots <==> IsRoot(p, policy, g, n)
  {
    roots := [];
    var left := g.nodes;
    while left != {}
      invariant left <= g.nodes
      invariant forall n :: n in roots <==>
        n in g.nodes - left && (IsRoot(p, policy, g, n) && NotOnlyEntry(policy, g, p, n))
      decreases left
    {
      var n :| n in left;
      left := left - {n};
      var root := policy.RetainAll? || (n.TopNode? && n.home == p.root)
        || (n.StorageNode? && exists e :: e in g.From(n) && e.target.RoutineNode? && e.reason == InitializerRelocation);
      InitializerRoot(g, n);
      if root { roots := roots + [n]; }
    }
    if policy.EntryReachable? && p.entry.Some? && RoutineNode(p.entry.value) !in roots {
      roots := roots + [RoutineNode(p.entry.value)];
    }
    forall n ensures n in roots <==> IsRoot(p, policy, g, n) { InitializerRoot(g, n); }
  }

  /** A root for a reason other than being the entry. */
  ghost predicate NotOnlyEntry(policy: Policy, g: Links<Node>, p: Program, n: Node) {
    policy.RetainAll? || (n.TopNode? && n.home == p.root)
    || (n.StorageNode? && exists t: Node :: t.RoutineNode? && g.Arrow(n, t, InitializerRelocation))
  }

  lemma InitializerRoot(g: Links<Node>, n: Node)
    requires Sound(g)
    ensures (exists e :: e in g.From(n) && e.target.RoutineNode? && e.reason == InitializerRelocation)
      <==> exists t: Node :: t.RoutineNode? && g.Arrow(n, t, InitializerRelocation)
    ensures (exists t: Node :: t.RoutineNode? && g.Arrow(n, t, InitializerRelocation)) ==> n in g.nodes
  {
    if e :| e in g.From(n) && e.target.RoutineNode? && e.reason == InitializerRelocation {
      assert g.Arrow(n, e.target, InitializerRelocation);
    }
    if t: Node :| t.RoutineNode? && g.Arrow(n, t, InitializerRelocation) {
      assert Edge(t, InitializerRelocation) in g.From(n);
    }
  }

  /** Build the graph, close over the roots, filter; None when a root or the entry routine is missing. */
  method Select(p: Program, policy: Policy) returns (r: Option<Program>, ghost kept: set<Node>)
    requires OneHome(Entries(p.modules))
    ensures r.Some? ==> Selects(p, policy, kept) && r.value == Filtered(p, kept)
    ensures r.Some? && p.entry.Some? ==> HasRoutine(r.value.modules, p.entry.value)
    ensures r.None? <==> p.entry.Some? && !IsNode(Entries(p.modules), RoutineNode(p.entry.value))
  {
    hide GraphOf, OneHome, Least, IsRoot, FilterItems, Explained;
    var entries := Flatten(p.modules);
    var g := BuildGraph(entries);
    var roots := Roots(p, policy, g);
    var graph := new LinkGraph<Node>();
    graph.links := g;
    var selection; ghost var rank;
    selection, rank := graph.Closure(roots);
    kept := {};
    if selection.Err? {
      EntryMissing(p, policy, g, selection.error);
      return None, {};
    }
    var retained := selection.value.retained;
    kept := retained;
    LeastContains(g, SetOf(roots), kept);
    assert Chosen(p, policy, kept, g, SetOf(roots));
    var modules: seq<Module> := [];
    for m := 0 to |p.modules|
      invariant |modules| == m && forall i :: 0 <= i < m ==> modules[i] == FilterModule(p.modules[i], retained)
    {
      var items := KeepItems(p.modules[m].id, p.modules[m].items, retained);
      modules := modules + [p.modules[m].(items := items)];
    }
    var selected := p.(modules := modules);
    assert selected == Filtered(p, retained);
    if selected.entry.Some? && !HasRoutine(selected.modules, selected.entry.value) {
      EntryStays(p, policy, g, kept);
      return None, kept;
    }
    EntryThere(p, kept);
    r := Some(selected);
  }

  lemma EntryMissing(p: Program, policy: Policy, g: Links<Node>, n: Node)
    requires GraphOf(Entries(p.modules), g) && Sound(g) && IsRoot(p, policy, g, n) && n !in g.nodes
    ensures p.entry.Some? && !IsNode(Entries(p.modules), RoutineNode(p.entry.value))
  {
    hide LayoutArrow, SymbolArrow, IsNode;
    InitializerRoot(g, n);
  }

  /** The entry of a selection survives if the program has it at all. */
  lemma EntryStays(p: Program, policy: Policy, g: Links<Node>, kept: set<Node>)
    requires GraphOf(Entries(p.modules), g) && p.entry.Some? && (forall n :: IsRoot(p, policy, g, n) ==> n in kept)
    ensures IsNode(Entries(p.modules), RoutineNode(p.entry.value)) ==>
      HasRoutine(Filtered(p, kept).modules, p.entry.value)
  {
    hide LayoutArrow, SymbolArrow, IsNode, HasRoutine;
    var n := RoutineNode(p.entry.value);
    if IsNode(Entries(p.modules), n) {
      assert IsRoot(p, policy, g, n);
      RoutineStays(p, kept, p.entry.value);
    }
  }

  lemma EntryThere(p: Program, kept: set<Node>)
    ensures p.entry.Some? && HasRoutine(Filtered(p, kept).modules, p.entry.value) ==>
      IsNode(Entries(p.modules), RoutineNode(p.entry.value))
  {
    if p.entry.Some? && HasRoutine(Filtered(p, kept).modules, p.entry.value) {
      var id := p.entry.value;
      var m :| m in Filtered(p, kept).modules && exists item :: item in m.items && item.Routine? && item.id == id;
      var i :| 0 <= i < |p.modules| && Filtered(p, kept).modules[i] == m;
      var item :| item in m.items && item.Routine? && item.id == id;
      FilterSubset(p.modules[i].id, p.modules[i].items, kept, item);
      RoutineIsNode(p.modules, p.modules[i], item);
    }
  }

  // ----- entries of modules and programs -----

  lemma {:induction false} FilterSubset(home: Option<nat>, items: seq<Item>, kept: set<Node>, item: Item)
    requires item in FilterItems(home, items, kept)
    ensures item in items
  {
    hide Keeps;
    var init, last := items[..|items| - 1], items[|items| - 1];
    InSnoc(FilterItems(home, init, kept), last, item);
    if item in FilterItems(home, init, kept) { FilterSubset(home, init, kept, item); }
  }

  lemma {:induction false} EntriesByModule(modules: seq<Module>, e: Entry)
    ensures e in Entries(modules) <==> exists m :: m in modules && e in ModuleEntries(m.id, m.items)
  {
    hide ModuleEntries;
    if modules != [] {
      var init, last := modules[..|modules| - 1], modules[|modules| - 1];
      EntriesByModule(init, e);
      assert modules == init + [last];
      forall m ensures m in modules <==> m in init || m == last { InSnoc(init, last, m); }
    }
  }

  lemma {:induction false} ItemHasEntry(home: Option<nat>, items: seq<Item>, item: Item)
    requires item in items && item.Routine?
    ensures Entry(RoutineNode(item.id), home, false, item.parts) in ModuleEntries(home, items)
  {
    var init, last := items[..|items| - 1], items[|items| - 1];
    assert items == init + [last];
    if item in init { ItemHasEntry(home, init, item); }
  }

  lemma RoutineIsNode(modules: seq<Module>, m: Module, item: Item)
    requires m in modules && item in m.items && item.Routine?
    ensures IsNode(Entries(modules), RoutineNode(item.id))
  {
    var e := Entry(RoutineNode(item.id), m.id, false, item.parts);
    ItemHasEntry(m.id, m.items, item);
    EntriesByModule(modules, e);
    assert e in Entries(modules);
  }

  lemma {:induction false} EntryHasItem(home: Option<nat>, items: seq<Item>, e: Entry) returns (item: Item)
    requires e in ModuleEntries(home, items) && e.owner.RoutineNode?
    ensures item in items && item == Routine(e.owner.id, e.parts)
  {
    var init, last := items[..|items| - 1], items[|items| - 1];
    assert items == init + [last];
    if e in ModuleEntries(home, init) { item := EntryHasItem(home, init, e); } else { item := last; }
  }

  lemma {:induction false} FilterKeepsRoutine(home: Option<nat>, items: seq<Item>, kept: set<Node>, item: Item)
    requires item in items && item.Routine? && RoutineNode(item.id) in kept
    ensures item in FilterItems(home, items, kept)
  {
    var init, last := items[..|items| - 1], items[|items| - 1];
    assert items == init + [last];
    if item in init { FilterKeepsRoutine(home, init, kept, item); }
  }

  lemma RoutineStays(p: Program, kept: set<Node>, id: nat)
    requires RoutineNode(id) in kept && IsNode(Entries(p.modules), RoutineNode(id))
    ensures HasRoutine(Filtered(p, kept).modules, id)
  {
    var e :| e in Entries(p.modules) && e.owner == RoutineNode(id);
    EntriesByModule(p.modules, e);
    var m :| m in p.modules && e in ModuleEntries(m.id, m.items);
    var item := EntryHasItem(m.id, m.items, e);
    FilterKeepsRoutine(m.id, m.items, kept, item);
    var i :| 0 <= i < |p.modules| && p.modules[i] == m;
    assert Filtered(p, kept).modules[i] == FilterModule(m, kept);
    assert item in FilterModule(m, kept).items;
  }

  lemma LeastContains(g: Links<Node>, roots: set<Node>, kept: set<Node>)
    requires Least(g, roots, kept)
    ensures roots <= kept
  {
  }

  // ----- top-level items of a module are kept or dropped together -----

  ghost predicate AllOrNone(entries: seq<Entry>, kept: set<Node>) {
    forall home, j, k :: TopNode(home, k) in kept && IsNode(entries, TopNode(home, j)) ==> TopNode(home, j) in kept
  }

  lemma {:induction false} TopEntryHome(home: Option<nat>, items: seq<Item>, e: Entry)
    requires e in ModuleEntries(home, items)
    ensures e.home == home && (e.owner.TopNode? ==> e.owner.home == home)
  {
    var init, last := items[..|items| - 1], items[|items| - 1];
    if e in ModuleEntries(home, init) { TopEntryHome(home, init, e); }
  }

  lemma HomeOfTop(modules: seq<Module>, e: Entry)
    requires e in Entries(modules) && e.owner.TopNode?
    ensures e.owner.home == e.home
  {
    EntriesByModule(modules, e);
    var m :| m in modules && e in ModuleEntries(m.id, m.items);
    TopEntryHome(m.id, m.items, e);
  }

  /** An edge to a top-level item comes from a hidden item of its module, and then to all of them. */
  lemma EdgesToTop(modules: seq<Module>, g: Links<Node>, s: Node, home: Option<nat>, j: nat, k: nat, r: Reason)
    requires GraphOf(Entries(modules), g) && g.Arrow(s, TopNode(home, k), r)
        && IsNode(Entries(modules), TopNode(home, j)) && s != TopNode(home, j)
    ensures g.Arrow(s, TopNode(home, j), ConservativeLayout)
  {
    hide Refers, Conceals;
    var entries := Entries(modules);
    hide Entries;
    if SymbolArrow(entries, s, TopNode(home, k), r) {
      var e :| e in entries && e.owner == s && Refers(e.parts, IdsOf(entries), StorageReference, TopNode(home, k), r);
      RefersResolved(e.parts, IdsOf(entries), StorageReference, TopNode(home, k), r);
    }
    assert LayoutArrow(entries, s, TopNode(home, k));
    var e, f :| e in entries && f in entries && e.owner == s && f.owner == TopNode(home,
        k) && e.home == f.home && Hidden(entries, s);
    var f2 :| f2 in entries && f2.owner == TopNode(home, j);
    HomeOfTop(modules, f);
    HomeOfTop(modules, f2);
    assert LayoutArrow(entries, s, TopNode(home, j));
  }

  /** If one top-level item of a module other than the root is dropped, all are. */
  lemma NoneOnTop(p: Program, g: Links<Node>, roots: set<Node>, kept: set<Node>, home: Option<nat>, j: nat)
    requires GraphOf(Entries(p.modules), g) && RootsAre(p, EntryReachable, g, roots) && Least(g, roots, kept)
    requires IsNode(Entries(p.modules), TopNode(home, j)) && TopNode(home, j) !in kept && home != p.root
    ensures forall k :: TopNode(home, k) !in kept
  {
    hide GraphOf;
    var fewer := set n | n in kept && !(n.TopNode? && n.home == home);
    forall s, t, r | s in fewer && g.Arrow(s, t, r)
      ensures t in fewer
    {
      assert t in kept;
      if t.TopNode? && t.home == home { EdgesToTop(p.modules, g, s, home, j, t.ordinal, r); }
    }
    assert Closed(g, fewer);
    assert roots <= fewer;
    assert kept <= fewer;
  }

  lemma ReachedTogether(p: Program, g: Links<Node>, roots: set<Node>, kept: set<Node>)
    requires GraphOf(Entries(p.modules), g) && RootsAre(p, EntryReachable, g, roots) && Least(g, roots, kept)
    ensures AllOrNone(Entries(p.modules), kept)
  {
    var entries := Entries(p.modules);
    forall home, j, k | TopNode(home, k) in kept && IsNode(entries, TopNode(home, j))
      ensures TopNode(home, j) in kept
    {
      NodeInGraph(p, g, TopNode(home, j));
      hide GraphOf;
      if TopNode(home, j) !in kept && home != p.root { NoneOnTop(p, g, roots, kept, home, j); }
    }
  }

  /** Whatever the policy, the top-level items of a module are kept together or not at all. */
  lemma TopTogether(p: Program, policy: Policy, kept: set<Node>)
    requires Selects(p, policy, kept)
    ensures AllOrNone(Entries(p.modules), kept)
  {
    hide Entries, GraphOf, Least;
    var g, roots :| Chosen(p, policy, kept, g, roots);
    match policy
    case RetainAll =>
      LeastContains(g, roots, kept);
      forall n | IsNode(Entries(p.modules), n)
        ensures n in kept
      {
        NodeInGraph(p, g, n);
        assert IsRoot(p, policy, g, n);
      }
    case EntryReachable =>
      ReachedTogether(p, g, roots, kept);
  }

  lemma NodeInGraph(p: Program, g: Links<Node>, n: Node)
    requires GraphOf(Entries(p.modules), g) && IsNode(Entries(p.modules), n)
    ensures n in g.nodes
  {
    hide IsNode, SymbolArrow, LayoutArrow;
  }

  // ----- what the filtered program consists of -----

  /** The first `n` top-level items of a module are all kept, or all dropped. */
  ghost predicate Uniform(home: Option<nat>, n: nat, kept: set<Node>, whole: bool) {
    forall j :: 0 <= j < n ==> (TopNode(home, j) in kept <==> whole)
  }

  /** When a module's top-level items stand or fall together, filtering keeps the ordinals of those that stand. */
  lemma {:induction false} FilteredOrdinal(home: Option<nat>, items: seq<Item>, kept: set<Node>, whole: bool)
    requires Uniform(home, Ordinal(items), kept, whole)
    ensures Ordinal(FilterItems(home, items, kept)) == if whole then Ordinal(items) else 0
  {
    if items != [] {
      var init, last := items[..|items| - 1], items[|items| - 1];
      FilteredOrdinal(home, init, kept, whole);
      var rest := FilterItems(home, init, kept);
      OrdinalSnoc(rest, last);
      assert rest + [] == rest;
    }
  }

  lemma OrdinalSnoc(items: seq<Item>, last: Item)
    ensures Ordinal(items + [last]) == Ordinal(items) + if last.TopLevel? then 1 else 0
  {
    assert (items + [last])[..|items|] == items;
  }

  lemma EntriesSnoc(home: Option<nat>, items: seq<Item>, last: Item)
    ensures ModuleEntries(home, items + [last]) == ModuleEntries(home, items) + Listed(EntryOf(home, items, last))
  {
    assert (items + [last])[..|items|] == items;
  }

  lemma {:induction false} FilteredEntries(home: Option<nat>, items: seq<Item>, kept: set<Node>, whole: bool, e: Entry)
    requires Uniform(home, Ordinal(items), kept, whole)
    ensures e in ModuleEntries(home, FilterItems(home, items, kept)) <==>
      e in ModuleEntries(home, items) && (e.always || e.owner in kept)
  {
    if items != [] {
      var init, last := items[..|items| - 1], items[|items| - 1];
      FilteredEntries(home, init, kept, whole, e);
      FilteredOrdinal(home, init, kept, whole);
      var rest := FilterItems(home, init, kept);
      assert rest + [] == rest;
      EntriesSnoc(home, rest, last);
      OneEntry(home, init, rest, last, kept, whole, e);
      hide EntryOf, Keeps, Uniform;
    }
  }

  lemma OneEntry(home: Option<nat>, init: seq<Item>, rest: seq<Item>, last: Item, kept: set<Node>, whole: bool,
      e: Entry)
    requires Uniform(home, Ordinal(init) + if last.TopLevel? then 1 else 0, kept, whole) && Ordinal(rest) == if whole then Ordinal(init) else 0
    ensures e in (if Keeps(home, init, last, kept) then Listed(EntryOf(home, rest, last)) else [])
      <==> e in Listed(EntryOf(home, init, last)) && (e.always || e.owner in kept)
  {
    assert last.TopLevel? ==> (TopNode(home, Ordinal(init)) in kept <==> whole);
  }

  // ----- the program as a whole -----

  lemma {:induction false} OrdinalIsNode(home: Option<nat>, items: seq<Item>, j: nat) returns (e: Entry)
    requires j < Ordinal(items)
    ensures e in ModuleEntries(home, items) && e.owner == TopNode(home, j)
  {
    var init, last := items[..|items| - 1], items[|items| - 1];
    if j < Ordinal(init) {
      e := OrdinalIsNode(home, init, j);
    } else {
      e := EntryOf(home, init, last).value;
    }
  }

  lemma ModuleUniform(modules: seq<Module>, m: Module, kept: set<Node>) returns (whole: bool)
    requires m in modules && AllOrNone(Entries(modules), kept)
    ensures Uniform(m.id, Ordinal(m.items), kept, whole)
  {
    whole := TopNode(m.id, 0) in kept;
    forall j | 0 <= j < Ordinal(m.items)
      ensures IsNode(Entries(modules), TopNode(m.id, j))
    {
      var e := OrdinalIsNode(m.id, m.items, j);
      EntriesByModule(modules, e);
      assert e in Entries(modules);
    }
  }

  /** The items of the filtered program: those kept, and the declarations that are only layout. */
  lemma EntriesOfFiltered(p: Program, kept: set<Node>, e: Entry)
    requires AllOrNone(Entries(p.modules), kept)
    ensures e in Entries(Filtered(p, kept).modules) <==> e in Entries(p.modules) && (e.always || e.owner in kept)
  {
    hide ModuleEntries, Entries, FilterItems, AllOrNone;
    var modules := Filtered(p, kept).modules;
    EntriesByModule(p.modules, e);
    EntriesByModule(modules, e);
    forall i | 0 <= i < |p.modules|
      ensures e in ModuleEntries(modules[i].id, modules[i].items)
        <==> e in ModuleEntries(p.modules[i].id, p.modules[i].items) && (e.always || e.owner in kept)
    {
      var whole := ModuleUniform(p.modules, p.modules[i], kept);
      FilteredEntries(p.modules[i].id, p.modules[i].items, kept, whole, e);
    }
    if e in Entries(modules) {
      var m :| m in modules && e in ModuleEntries(m.id, m.items);
      var i :| 0 <= i < |modules| && modules[i] == m;
      assert p.modules[i] in p.modules;
    }
    if e in Entries(p.modules) && (e.always || e.owner in kept) {
      var m :| m in p.modules && e in ModuleEntries(m.id, m.items);
      var i :| 0 <= i < |p.modules| && p.modules[i] == m;
      assert modules[i] in modules;
    }
  }

  // ----- the three promises of selection -----

  /** What a kept item refers to, or a hidden kept item's module contains, is kept and in the selected program. */
  lemma SelectionIsComplete(p: Program, policy: Policy, kept: set<Node>, s: Node, t: Node, r: Reason)
    requires Selects(p, policy, kept)
    requires s in kept && (SymbolArrow(Entries(p.modules), s, t, r) || LayoutArrow(Entries(p.modules), s, t))
    ensures t in kept && IsNode(Entries(Filtered(p, kept).modules), t)
  {
    hide SymbolArrow, LayoutArrow, AllOrNone, RootsAre;
    TopTogether(p, policy, kept);
    var g, roots :| Chosen(p, policy, kept, g, roots);
    var entries := Entries(p.modules);
    assert SymbolArrow(entries, s, t, r) ==> g.Arrow(s, t, r);
    assert LayoutArrow(entries, s, t) ==> g.Arrow(s, t, ConservativeLayout);
    assert t in kept;
    GraphSound(entries, g);
    KeptIsNode(p, kept, t);
  }

  lemma KeptIsNode(p: Program, kept: set<Node>, t: Node)
    requires AllOrNone(Entries(p.modules), kept) && t in kept && IsNode(Entries(p.modules), t)
    ensures IsNode(Entries(Filtered(p, kept).modules), t)
  {
    hide Entries, Filtered, AllOrNone;
    var e :| e in Entries(p.modules) && e.owner == t;
    EntriesOfFiltered(p, kept, e);
  }

  // ----- what is kept without being reached -----

  ghost predicate RefersTo(e: Entry, ids: Ids, t: Node) { exists r :: Refers(e.parts, ids, StorageReference, t, r) }

  /** Every item refers only to items that are there. */
  ghost predicate SelfContained(entries: seq<Entry>, ids: Ids) {
    forall e, t :: e in entries && RefersTo(e, ids, t) ==> IsNode(entries, t)
  }

  ghost predicate Stays(entries: seq<Entry>, kept: set<Node>, t: Node) {
    t in kept || exists f :: f in entries && f.owner == t && f.always
  }

  /** The layouts that stay without being reached refer only to what is reached or to other layouts. */
  ghost predicate LayoutsCovered(entries: seq<Entry>, kept: set<Node>) {
    forall e, t :: e in entries && e.always && e.owner !in kept && RefersTo(e, IdsOf(entries), t) ==> Stays(entries, kept, t)
  }

  lemma {:induction false} MentionsNode(tree: Tree, entries: seq<Entry>, inherited: Reason, t: Node, r: Reason)
    requires Mentions(tree, IdsOf(entries), inherited, t, r)
    ensures IsNode(entries, t)
    decreases tree, 1
  {
    match tree
    case Inherit(children) => RefersNode(children, entries, inherited, t, r);
    case Under(reason, children) => RefersNode(children, entries, reason, t, r);
    case _ =>
  }

  lemma {:induction false} RefersNode(trees: seq<Tree>, entries: seq<Entry>, inherited: Reason, t: Node, r: Reason)
    requires Refers(trees, IdsOf(entries), inherited, t, r)
    ensures IsNode(entries, t)
    decreases trees, 0
  {
    hide Mentions;
    var c := RefersFrom(trees, IdsOf(entries), inherited, t, r);
    MentionsNode(c, entries, inherited, t, r);
  }

  lemma StaysIsNode(p: Program, kept: set<Node>, t: Node)
    requires AllOrNone(Entries(p.modules), kept) && IsNode(Entries(p.modules), t)
    ensures IsNode(Entries(Filtered(p, kept).modules), t) <==> Stays(Entries(p.modules), kept, t)
  {
    hide Entries, Filtered, AllOrNone;
    var big, small := Entries(p.modules), Entries(Filtered(p, kept).modules);
    if IsNode(small, t) {
      var e :| e in small && e.owner == t;
      EntriesOfFiltered(p, kept, e);
    }
    if t in kept { KeptIsNode(p, kept, t); }
    if f :| f in big && f.owner == t && f.always { EntriesOfFiltered(p, kept, f); }
  }

  /** The selected program refers to nothing that was dropped if and only if its unreached layouts do not. */
  lemma SelfContainedExactly(p: Program, policy: Policy, kept: set<Node>)
    requires Selects(p, policy, kept)
    ensures SelfContained(Entries(Filtered(p, kept).modules), IdsOf(Entries(p.modules))) <==>
      LayoutsCovered(Entries(p.modules), kept)
  {
    hide Entries, Filtered, AllOrNone, Refers, Selects, IsNode, Stays;
    TopTogether(p, policy, kept);
    var big, small := Entries(p.modules), Entries(Filtered(p, kept).modules);
    forall e { EntriesOfFiltered(p, kept, e); }
    forall e, t | e in big && RefersTo(e, IdsOf(big), t)
      ensures IsNode(small, t) <==> Stays(big, kept, t)
      ensures e.owner in kept ==> Stays(big, kept, t)
    {
      ReferenceStays(p, policy, kept, e, t);
    }
  }

  lemma ReferenceStays(p: Program, policy: Policy, kept: set<Node>, e: Entry, t: Node)
    requires Selects(p, policy, kept) && AllOrNone(Entries(p.modules), kept)
    requires e in Entries(p.modules) && RefersTo(e, IdsOf(Entries(p.modules)), t)
    ensures IsNode(Entries(Filtered(p, kept).modules), t) <==> Stays(Entries(p.modules), kept, t)
    ensures e.owner in kept ==> Stays(Entries(p.modules), kept, t)
  {
    hide Entries, Filtered, AllOrNone, Refers, Selects;
    var entries := Entries(p.modules);
    var r :| Refers(e.parts, IdsOf(entries), StorageReference, t, r);
    RefersNode(e.parts, entries, StorageReference, t, r);
    StaysIsNode(p, kept, t);
    if e.owner in kept && t != e.owner {
      assert SymbolArrow(entries, e.owner, t, r);
      SelectionIsComplete(p, policy, kept, e.owner, t, r);
    }
  }

  /** A record with an array field, whose length mentions a variable that nothing else uses. */
  const SPARE: Program := Program(
    [Module(None, [Declaration(1, true, [Under(InitializerRelocation, [Named(2)])]), Declaration(2, false, [])])], Some(0), None)

  const RECORD: Entry := Entry(StorageNode(1), None, true, [Under(InitializerRelocation, [Named(2)])])

  const VARIABLE: Entry := Entry(StorageNode(2), None, false, [])

  lemma SpareEntries()
    ensures Entries(SPARE.modules) == [RECORD, VARIABLE]
  {
    var items := SPARE.modules[0].items;
    assert items[..1] == [items[0]] && items[..0] == [];
    assert ModuleEntries(None, []) == [];
    assert ModuleEntries(None, items[..1]) == [RECORD];
    assert ModuleEntries(None, items) == [RECORD, VARIABLE];
    assert SPARE.modules[..0] == [] && Entries(SPARE.modules[..0]) == [];
  }

  lemma SpareRoots(g: Links<Node>, n: Node)
    requires GraphOf([RECORD, VARIABLE], g)
    ensures !IsRoot(SPARE, EntryReachable, g, n)
  {
    hide LayoutArrow, Hidden, Conceals;
    var entries := [RECORD, VARIABLE];
    if n in g.nodes { assert n == RECORD.owner || n == VARIABLE.owner; }
    if t: Node :| t.RoutineNode? && g.Arrow(n, t, InitializerRelocation) {
      var e :| e in entries && e.owner == n && Refers(e.parts, IdsOf(entries), StorageReference, t,
          InitializerRelocation);
      RefersNode(e.parts, entries, StorageReference, t, InitializerRelocation);
      assert false;
    }
  }

  lemma NothingReached(g: Links<Node>, kept: set<Node>)
    requires Least(g, {}, kept)
    ensures kept == {}
  {
    var none: set<Node> := {};
    assert Closed(g, none);
  }

  /** The record stays, and what it mentions does not. */
  lemma SpareMention(kept: set<Node>)
    requires Selects(SPARE, EntryReachable, kept)
    ensures kept == {} && !SelfContained(Entries(Filtered(SPARE, kept).modules), IdsOf(Entries(SPARE.modules)))
  {
    hide Entries, Filtered, GraphOf, Least, IsRoot;
    SpareEntries();
    var g, roots :| Chosen(SPARE, EntryReachable, kept, g, roots);
    forall n ensures n !in roots { SpareRoots(g, n); }
    assert roots == {};
    NothingReached(g, kept);
    SpareUncovered();
    SelfContainedExactly(SPARE, EntryReachable, kept);
  }

  lemma SpareUncovered()
    ensures !LayoutsCovered([RECORD, VARIABLE], {})
  {
    var entries := [RECORD, VARIABLE];
    var t := StorageNode(2);
    assert Mentions(Named(2), IdsOf(entries), InitializerRelocation, t, InitializerRelocation);
    RefersBy([Named(2)], Named(2), IdsOf(entries), InitializerRelocation, t, InitializerRelocation);
    RefersBy(RECORD.parts, RECORD.parts[0], IdsOf(entries), StorageReference, t, InitializerRelocation);
    assert RECORD in entries && RefersTo(RECORD, IdsOf(entries), t);
  }

  /** Nothing is filtered out when every node is kept. */
  lemma {:induction false} KeepingAll(home: Option<nat>, items: seq<Item>, kept: set<Node>)
    requires forall e :: e in ModuleEntries(home, items) ==> e.always || e.owner in kept
    ensures FilterItems(home, items, kept) == items
  {
    if items != [] {
      var init, last := items[..|items| - 1], items[|items| - 1];
      assert items == init + [last];
      assert ModuleEntries(home, items) == ModuleEntries(home, init) + Listed(EntryOf(home, init, last));
      forall e | e in ModuleEntries(home, init) ensures e in ModuleEntries(home, items) { }
      KeepingAll(home, init, kept);
      var own := EntryOf(home, init, last);
      if own.Some? { assert own.value in ModuleEntries(home, items) by { assert own.value == Listed(own)[0]; } }
    }
  }

  lemma KeepingAllOfProgram(p: Program, kept: set<Node>)
    requires forall e :: e in Entries(p.modules) ==> e.always || e.owner in kept
    ensures Filtered(p, kept) == p
  {
    hide Entries, ModuleEntries, FilterItems;
    var modules := Filtered(p, kept).modules;
    forall i | 0 <= i < |p.modules|
      ensures modules[i] == p.modules[i]
    {
      var m := p.modules[i];
      forall e | e in ModuleEntries(m.id, m.items)
        ensures e.always || e.owner in kept
      {
        assert m in p.modules;
        EntriesByModule(p.modules, e);
      }
      KeepingAll(m.id, m.items, kept);
    }
    assert modules == p.modules;
  }

  /** Retaining everything is the identity on programs. */
  lemma RetainAllIsIdentity(p: Program, kept: set<Node>)
    requires Selects(p, RetainAll, kept)
    ensures Filtered(p, kept) == p
  {
    hide Entries, Filtered;
    var g, roots :| Chosen(p, RetainAll, kept, g, roots);
    LeastContains(g, roots, kept);
    forall e | e in Entries(p.modules)
      ensures e.owner in kept
    {
      assert IsNode(Entries(p.modules), e.owner);
      assert IsRoot(p, RetainAll, g, e.owner);
    }
    KeepingAllOfProgram(p, kept);
  }

  // ----- selecting twice -----

  /** A reference to a kept node reads the same in the selected program. */
  lemma {:induction false} MentionsAgain(tree: Tree, ids: Ids, ids2: Ids, inherited: Reason, t: Node, r: Reason)
    requires Mentions(tree, ids, inherited, t, r) && ids2.routines <= ids.routines
    requires (t.RoutineNode? ==> t.id in ids2.routines) && (t.StorageNode? ==> t.id in ids2.storage)
    ensures Mentions(tree, ids2, inherited, t, r)
    decreases tree, 1
  {
    match tree
    case Leaf =>
    case Opaque =>
    case Named(_) =>
    case Place(_) =>
    case Direct(_, _) =>
    case Inherit(children) => RefersAgain(children, ids, ids2, inherited, t, r);
    case Under(reason, children) => RefersAgain(children, ids, ids2, reason, t, r);
  }

  lemma {:induction false} RefersAgain(trees: seq<Tree>, ids: Ids, ids2: Ids, inherited: Reason, t: Node, r: Reason)
    requires Refers(trees, ids, inherited, t, r) && ids2.routines <= ids.routines
    requires (t.RoutineNode? ==> t.id in ids2.routines) && (t.StorageNode? ==> t.id in ids2.storage)
    ensures Refers(trees, ids2, inherited, t, r)
    decreases trees, 0
  {
    hide Refers, Mentions;
    var c := RefersFrom(trees, ids, inherited, t, r);
    MentionsAgain(c, ids, ids2, inherited, t, r);
    RefersBy(trees, c, ids2, inherited, t, r);
  }

  ghost predicate Subprogram(big: seq<Entry>, small: seq<Entry>, kept: set<Node>) {
    forall e :: e in small <==> e in big && (e.always || e.owner in kept)
  }

  lemma IdsShrink(big: seq<Entry>, small: seq<Entry>, kept: set<Node>, t: Node)
    requires Subprogram(big, small, kept)
    ensures IdsOf(small).routines <= IdsOf(big).routines
    ensures t in kept && IsNode(big, t) ==>
      (t.RoutineNode? ==> t.id in IdsOf(small).routines) && (t.StorageNode? ==> t.id in IdsOf(small).storage)
  {
    if t in kept && IsNode(big, t) {
      var e :| e in big && e.owner == t;
      assert e in small;
    }
  }

  /** Edges between kept nodes are edges of the selected program. */
  lemma ArrowAgain(big: seq<Entry>, small: seq<Entry>, kept: set<Node>, s: Node, t: Node, r: Reason)
    requires Subprogram(big, small, kept) && s in kept && t in kept && IsNode(big, t)
    ensures SymbolArrow(big, s, t, r) ==> SymbolArrow(small, s, t, r)
    ensures LayoutArrow(big, s, t) ==> LayoutArrow(small, s, t)
  {
    hide Refers, Conceals;
    IdsShrink(big, small, kept, t);
    if SymbolArrow(big, s, t, r) {
      var e :| e in big && e.owner == s && Refers(e.parts, IdsOf(big), StorageReference, t, r);
      RefersAgain(e.parts, IdsOf(big), IdsOf(small), StorageReference, t, r);
      assert e in small;
    }
    if LayoutArrow(big, s, t) {
      var e, f :| e in big && f in big && e.owner == s && f.owner == t && e.home == f.home && Hidden(big, s);
      var h :| h in big && h.owner == s && Conceals(h.parts);
      assert e in small && f in small && h in small;
    }
  }

  /** Everything kept the first time is kept again. */
  lemma KeptAgain(p: Program, p2: Program, g: Links<Node>, g2: Links<Node>, roots: set<Node>, roots2: set<Node>,
      kept: set<Node>, kept2: set<Node>)
    requires GraphOf(Entries(p.modules), g) && GraphOf(Entries(p2.modules), g2) && Sound(g)
    requires Subprogram(Entries(p.modules), Entries(p2.modules), kept) && p2.root == p.root && p2.entry == p.entry
    requires RootsAre(p, EntryReachable, g, roots) && roots <= g.nodes && Least(g, roots, kept)
    requires RootsAre(p2, EntryReachable, g2, roots2) && Least(g2, roots2, kept2)
    ensures kept * g.nodes <= kept2
  {
    hide SymbolArrow, LayoutArrow, Entries;
    var big, small := Entries(p.modules), Entries(p2.modules);
    forall s, t, r | s in kept && g.Arrow(s, t, r)
      ensures g2.Arrow(s, t, r)
    {
      ArrowAgain(big, small, kept, s, t, r);
    }
    forall n | n in roots
      ensures n in roots2
    {
      assert n in kept && n in g.nodes;
      NodeAgain(big, small, kept, n);
      if n.StorageNode? && exists t: Node :: t.RoutineNode? && g.Arrow(n, t, InitializerRelocation) {
        var t: Node :| t.RoutineNode? && g.Arrow(n, t, InitializerRelocation);
        assert g2.Arrow(n, t, InitializerRelocation);
      }
    }
    hide GraphOf, IsRoot, Subprogram;
    var both := kept * kept2;
    assert roots <= both;
    assert Closed(g, both);
    assert kept <= both;
  }

  lemma NodeAgain(big: seq<Entry>, small: seq<Entry>, kept: set<Node>, n: Node)
    requires Subprogram(big, small, kept) && n in kept && IsNode(big, n)
    ensures IsNode(small, n)
  {
    var e :| e in big && e.owner == n;
    assert e in small;
  }

  /** Selecting from a selected program selects all of it, under either policy. */
  lemma SelectTwice(p: Program, policy: Policy, kept: set<Node>, kept2: set<Node>)
    requires Selects(p, policy, kept) && Selects(Filtered(p, kept), policy, kept2)
    ensures Filtered(Filtered(p, kept), kept2) == Filtered(p, kept)
  {
    hide Entries, Filtered, Selects;
    match policy
    case RetainAll => RetainAllIsIdentity(Filtered(p, kept), kept2);
    case EntryReachable => ReachTwice(p, kept, kept2);
  }

  lemma ReachTwice(p: Program, kept: set<Node>, kept2: set<Node>)
    requires Selects(p, EntryReachable, kept) && Selects(Filtered(p, kept), EntryReachable, kept2)
    ensures Filtered(Filtered(p, kept), kept2) == Filtered(p, kept)
  {
    hide Entries, Filtered, Least, IsRoot, GraphOf;
    var p2 := Filtered(p, kept);
    assert p2.root == p.root && p2.entry == p.entry by { SameFrame(p, kept); }
    TopTogether(p, EntryReachable, kept);
    var g, roots :| Chosen(p, EntryReachable, kept, g, roots);
    var g2, roots2 :| Chosen(p2, EntryReachable, kept2, g2, roots2);
    forall e { EntriesOfFiltered(p, kept, e); }
    assert Subprogram(Entries(p.modules), Entries(p2.modules), kept);
    GraphSound(Entries(p.modules), g);
    KeptAgain(p, p2, g, g2, roots, roots2, kept, kept2);
    forall e | e in Entries(p2.modules)
      ensures e.always || e.owner in kept2
    {
      OwnerIsNode(Entries(p.modules), g, e);
    }
    KeepingAllOfProgram(p2, kept2);
  }

  lemma OneHomeStays(p: Program, policy: Policy, kept: set<Node>)
    requires Selects(p, policy, kept) && OneHome(Entries(p.modules))
    ensures OneHome(Entries(Filtered(p, kept).modules))
  {
    hide Entries, Filtered, Selects, AllOrNone;
    TopTogether(p, policy, kept);
    forall e { EntriesOfFiltered(p, kept, e); }
  }

  lemma EntryIsNode(p: Program)
    requires p.entry.Some? && HasRoutine(p.modules, p.entry.value)
    ensures IsNode(Entries(p.modules), RoutineNode(p.entry.value))
  {
    var m :| m in p.modules && exists item :: item in m.items && item.Routine? && item.id == p.entry.value;
    var item :| item in m.items && item.Routine? && item.id == p.entry.value;
    RoutineIsNode(p.modules, m, item);
  }

  /** What was selected can be selected from, and gives itself. */
  method SelectAgain(p: Program, policy: Policy) returns (once: Option<Program>, twice: Option<Program>)
    requires OneHome(Entries(p.modules))
    ensures once.None? <==> p.entry.Some? && !IsNode(Entries(p.modules), RoutineNode(p.entry.value))
    ensures twice == once
  {
    hide Entries, Filtered, Selects, OneHome, IsNode, HasRoutine;
    ghost var kept, kept2;
    once, kept := Select(p, policy);
    twice := None;
    if once.Some? {
      OneHomeStays(p, policy, kept);
      assert once.value.entry == p.entry by { SameFrame(p, kept); }
      twice, kept2 := Select(once.value, policy);
      if once.value.entry.Some? { EntryIsNode(once.value); }
      SelectTwice(p, policy, kept, kept2);
    }
  }

  lemma SameFrame(p: Program, kept: set<Node>)
    ensures Filtered(p, kept).root == p.root && Filtered(p, kept).entry == p.entry
  {
  }

  lemma OwnerIsNode(entries: seq<Entry>, g: Links<Node>, e: Entry)
    requires GraphOf(entries, g)
    ensures e in entries ==> e.owner in g.nodes
  {
    hide SymbolArrow, LayoutArrow;
    assert e in entries ==> IsNode(entries, e.owner);
  }
}
