/** The roots of a selection, by the items of the program. */
module LinkRoots {
  import opened Wrappers
  import opened Linker
  import opened LinkGraphs
  import opened LinkSelect

  /** A statement or memory directive outside any routine, in the root module. */
  ghost predicate RootItem(p: Program, n: Node, m: nat, k: nat) {
    && m < |p.modules| && k < |p.modules[m].items| && p.modules[m].id == p.root
    && p.modules[m].items[k].TopLevel? && n == TopNode(p.root, Ordinal(p.modules[m].items[..k]))
  }

  /** A declaration with a routine's address in an initializer. */
  ghost predicate Initialized(p: Program, n: Node, m: nat, k: nat, id: nat) {
    && m < |p.modules| && k < |p.modules[m].items| && p.modules[m].items[k].Declaration?
    && n == StorageNode(p.modules[m].items[k].id)
    && Refers(p.modules[m].items[k].parts, IdsOf(Entries(p.modules)), StorageReference, RoutineNode(id), InitializerRelocation)
  }

  ghost predicate IsEntry(p: Program, n: Node) { p.entry.Some? && n == RoutineNode(p.entry.value) }

  lemma {:induction false} EntryPlace(home: Option<nat>, items: seq<Item>, e: Entry) returns (k: nat)
    requires e in ModuleEntries(home, items)
    ensures k < |items| && EntryOf(home, items[..k], items[k]) == Some(e)
  {
    var n := |items| - 1;
    if e in ModuleEntries(home, items[..n]) {
      k := EntryPlace(home, items[..n], e);
      assert items[..n][..k] == items[..k];
    } else {
      k := n;
    }
  }

  lemma {:induction false} PlaceEntry(home: Option<nat>, items: seq<Item>, k: nat)
    requires k < |items| && EntryOf(home, items[..k], items[k]).Some?
    ensures EntryOf(home, items[..k], items[k]).value in ModuleEntries(home, items)
    decreases |items|
  {
    hide EntryOf;
    var n := |items| - 1;
    if k < n {
      assert items[..n][..k] == items[..k];
      PlaceEntry(home, items[..n], k);
    }
  }

  lemma ProgramPlace(p: Program, e: Entry) returns (m: nat, k: nat)
    requires e in Entries(p.modules)
    ensures m < |p.modules| && k < |p.modules[m].items|
    ensures EntryOf(p.modules[m].id, p.modules[m].items[..k], p.modules[m].items[k]) == Some(e)
  {
    hide EntryOf, Entries;
    EntriesByModule(p.modules, e);
    var home :| home in p.modules && e in ModuleEntries(home.id, home.items);
    m :| 0 <= m < |p.modules| && p.modules[m] == home;
    k := EntryPlace(home.id, home.items, e);
  }

  lemma PlaceInProgram(p: Program, m: nat, k: nat)
    requires m < |p.modules| && k < |p.modules[m].items|
    requires EntryOf(p.modules[m].id, p.modules[m].items[..k], p.modules[m].items[k]).Some?
    ensures EntryOf(p.modules[m].id, p.modules[m].items[..k], p.modules[m].items[k]).value in Entries(p.modules)
  {
    hide EntryOf, Entries;
    PlaceEntry(p.modules[m].id, p.modules[m].items, k);
    EntriesByModule(p.modules, EntryOf(p.modules[m].id, p.modules[m].items[..k], p.modules[m].items[k]).value);
  }

  lemma RootItemsAre(p: Program, g: Links<Node>, n: Node)
    requires GraphOf(Entries(p.modules), g)
    ensures n in g.nodes && n.TopNode? && n.home == p.root <==> exists m, k :: RootItem(p, n, m, k)
  {
    hide Entries, SymbolArrow, LayoutArrow;
    if n in g.nodes && n.TopNode? && n.home == p.root {
      assert IsNode(Entries(p.modules), n);
      var e :| e in Entries(p.modules) && e.owner == n;
      var m, k := ProgramPlace(p, e);
      assert RootItem(p, n, m, k);
    }
    if m, k :| RootItem(p, n, m, k) {
      PlaceInProgram(p, m, k);
      assert IsNode(Entries(p.modules), n);
    }
  }

  lemma InitializedAre(p: Program, g: Links<Node>, n: Node, id: nat)
    requires GraphOf(Entries(p.modules), g)
    ensures n.StorageNode? && g.Arrow(n, RoutineNode(id), InitializerRelocation) <==>
      exists m, k :: Initialized(p, n, m, k, id)
  {
    hide Entries, Refers, IdsOf, LayoutArrow;
    if n.StorageNode? && g.Arrow(n, RoutineNode(id), InitializerRelocation) {
      assert SymbolArrow(Entries(p.modules), n, RoutineNode(id), InitializerRelocation);
      var e :| e in Entries(p.modules) && e.owner == n
        && Refers(e.parts, IdsOf(Entries(p.modules)), StorageReference, RoutineNode(id), InitializerRelocation);
      var m, k := ProgramPlace(p, e);
      assert Initialized(p, n, m, k, id);
    }
    if m, k :| Initialized(p, n, m, k, id) {
      PlaceInProgram(p, m, k);
      assert SymbolArrow(Entries(p.modules), n, RoutineNode(id), InitializerRelocation);
    }
  }

  /**
   * What a program is selected from: the items outside routines of its root module, the declarations initialized with a
   * routine's address, and the entry.
   */
  lemma RootsAreItems(p: Program, g: Links<Node>, n: Node)
    requires GraphOf(Entries(p.modules), g)
    ensures IsRoot(p, EntryReachable, g, n) <==>
      || (exists m, k :: RootItem(p, n, m, k))
      || (exists m, k, id :: Initialized(p, n, m, k, id))
      || IsEntry(p, n)
    ensures IsRoot(p, RetainAll, g, n) <==> IsNode(Entries(p.modules), n)
  {
    hide Entries, SymbolArrow, LayoutArrow, RootItem, Initialized;
    RootItemsAre(p, g, n);
    if n.StorageNode? {
      if t: Node :| t.RoutineNode? && g.Arrow(n, t, InitializerRelocation) {
        InitializedAre(p, g, n, t.id);
        var m, k :| Initialized(p, n, m, k, t.id);
      }
    }
    if m, k, id :| Initialized(p, n, m, k, id) {
      InitializedAre(p, g, n, id);
      assert RoutineNode(id).RoutineNode?;
    }
  }
}
