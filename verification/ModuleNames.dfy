/** Where the modules of a load come from, said of the two lookups alone. */
module ModuleNames {
  import opened Wrappers
  import opened Includes
  import opened Modules

  /** The names kept for embedded modules. */
  predicate ForEmbedded(n: Name) { n != [] && n[0] in {"sys", "atari"} }

  /** The file of a name: the embedded one, or else, for an ordinary name, the one the search finds. */
  ghost predicate ComesFrom(l: Library, n: Name, o: Origin) {
    if l.embedded(n) == Missing then !ForEmbedded(n) && l.search(n) == Found(o) else l.embedded(n) == Found(o)
  }

  ghost predicate UnitOf(l: Library, n: Name, o: Origin, u: Parsed)
    requires Fits(l.world)
  {
    ComesFrom(l, n, o) && UnitAt(l.world, l.world.resolve(o)) == Ok(u) && u.program.named == Some(n)
  }

  /** A module is available if and only if its name has a file, and that file is of a module of the same name. */
  lemma NamedExactly(l: Library, n: Name, u: Parsed)
    requires Fits(l.world)
    ensures ModuleNamed(l, n) == Ok(u) <==> exists o :: UnitOf(l, n, o, u)
  {
    hide UnitAt;
    if ModuleNamed(l, n) == Ok(u) {
      var o := ResolveUse(l, n).value;
      assert UnitOf(l, n, o, u);
    }
    forall o | UnitOf(l, n, o, u) ensures ModuleNamed(l, n) == Ok(u) { assert ResolveUse(l, n) == Ok(o); }
  }

  /** Why a name is not available. */
  ghost predicate Lacking(l: Library, n: Name, f: Fault)
    requires Fits(l.world)
  {
    match f
    case Cycle(_) => false
    case LookupFailed(m) => m == n && (l.embedded(n) == Failed || (Searched(l, n) && l.search(n) == Failed))
    case ReservedMissing(m) => m == n && l.embedded(n) == Missing && ForEmbedded(n)
    case NotFound(m) => m == n && Searched(l, n) && l.search(n) == Missing
    case Inclusion(problems) => exists o :: ComesFrom(l, n, o) && At(l.world, Twice(l, o), [], true) == Err(problems)
    case Malformed(at) => exists o :: ComesFrom(l, n, o) && at == l.world.resolve(o) && Unparsed(l, o)
    case LegacyUsed(m) => m == n && exists o, u :: InFile(l, n, o, u) && u.program.named.None?
    case WrongModule(m, declared) => m == n && declared != n && exists o, u :: InFile(l, n, o, u) && u.program.named == Some(declared)
  }

  /** Only names that are neither embedded nor kept for embedded modules are searched for. */
  predicate Searched(l: Library, n: Name) { l.embedded(n) == Missing && !ForEmbedded(n) }

  function Twice(l: Library, o: Origin): Origin { l.world.resolve(l.world.resolve(o)) }

  ghost predicate InFile(l: Library, n: Name, o: Origin, u: Parsed)
    requires Fits(l.world)
  {
    ComesFrom(l, n, o) && UnitAt(l.world, l.world.resolve(o)) == Ok(u)
  }

  ghost predicate Unparsed(l: Library, o: Origin)
    requires Fits(l.world)
  {
    At(l.world, Twice(l, o), [], true).Ok? && l.world.parse(At(l.world, Twice(l, o), [], true).value.text).None?
  }

  lemma OneFile(l: Library, n: Name, o: Origin, p: Origin)
    requires ComesFrom(l, n, o) && ComesFrom(l, n, p)
    ensures o == p
  {
  }

  /** The fault a name is refused with says what is lacking. */
  lemma FaultExactly(l: Library, n: Name, f: Fault)
    requires Fits(l.world)
    ensures ModuleNamed(l, n) == Err(f) <==> Lacking(l, n, f)
  {
    hide At;
    var r := ResolveUse(l, n);
    if r.Ok? {
      var o := r.value;
      assert ComesFrom(l, n, o);
      forall p | ComesFrom(l, n, p) ensures p == o { OneFile(l, n, o, p); }
      var u := UnitAt(l.world, l.world.resolve(o));
      if u.Ok? { assert InFile(l, n, o, u.value); }
    }
  }

  /** Every loaded module but the root is the one in the file of its name. */
  lemma LoadedComesFrom(l: Library, g: Graph, i: nat)
    requires Ready(l) && Finished(l, g) && 0 < i < |g.modules|
    ensures g.modules[i].name.Some?
    ensures exists o, u :: UnitOf(l, g.modules[i].name.value, o, u) && u.program == g.modules[i].program
  {
    hide Settled, UnitAt, ModuleNamed, UnitOf, Reached, Root, RootUnit;
    var m := g.modules[i];
    assert IsUnit(l, m);
    RootOnce(l, g, i);
    var u := ModuleNamed(l, m.name.value).value;
    NamedExactly(l, m.name.value, u);
  }

  /** The root's name belongs to the root. */
  lemma RootOnce(l: Library, g: Graph, i: nat)
    requires Ready(l) && Finished(l, g) && 0 < i < |g.modules|
    ensures g.modules[i].name.Some? && g.modules[i].name != Root(l).named
  {
    hide Settled, IsUnit, Ready;
    assert g.modules[0].name.Some? ==> g.byPath[g.modules[0].name.value] == 0;
  }

  /** What a loaded module depends on: what its text uses, and SYS in front for a root that is not SYS. */
  lemma LoadedDepends(l: Library, g: Graph, i: nat)
    requires Ready(l) && Finished(l, g) && i < |g.modules|
    ensures var m := g.modules[i];
      var used := if m.program.named.None? then [] else m.program.uses;
      var sys := if i == 0 && l.implicitSys && m.program.named != Some(["sys"]) then [["sys"]] else [];
      DependsOn(g, m.dependencies, sys + used)
  {
    hide UnitAt, ModuleNamed, Ready, Firsts, RootUnit;
    var m := g.modules[i];
    assert i in g.order;
    var k :| 0 <= k < |g.order| && g.order[k] == i;
    assert SettledAt(l, g, k);
    assert IsUnit(l, m);
    hide IsUnit, Settled, Catalogued, Finished;
    NextIs(l, g, i);
  }

  lemma NextIs(l: Library, g: Graph, i: nat)
    requires Ready(l) && Finished(l, g) && i < |g.modules|
    ensures var m := g.modules[i];
      var used := if m.program.named.None? then [] else m.program.uses;
      var sys := if i == 0 && l.implicitSys && m.program.named != Some(["sys"]) then [["sys"]] else [];
      Next(l, m.name) == sys + used
  {
    hide Settled, UnitAt, ModuleNamed;
    var m := g.modules[i];
    assert IsUnit(l, m);
    if i > 0 { RootOnce(l, g, i); assert [] + UsesOf(m.program) == UsesOf(m.program); }
  }

  /** Using the root again closes a ring. */
  lemma RootUsedAgain(l: Library, v: Option<Name>, n: Name)
    requires Ready(l) && Reached(l, v) && n in Next(l, v) && Root(l).named == Some(n)
    ensures !Loadable(l)
  {
    hide Next, UnitAt, UnitFor;
    RootReached(l);
    hide Root, Ready, Reached;
    var c := WayTo(l, v);
    var ring := seq(|c| + 1, k requires 0 <= k <= |c| => if k < |c| && c[k].Some? then c[k].value else n);
    forall k | 0 <= k < |ring| - 1
      ensures c[k].Some? && ring[k + 1] in Next(l, Some(ring[k]))
    {
      if k < |c| - 1 { assert Uses(l, c[k], c[k + 1]); }
      if k > 0 { assert Uses(l, c[k - 1], c[k]); }
    }
    assert Ring(l, ring) && ring[0] == n;
  }

  lemma WayTo(l: Library, v: Option<Name>) returns (c: seq<Option<Name>>)
    requires Ready(l) && Reached(l, v)
    ensures c != [] && c[0] == Root(l).named && c[|c| - 1] == v && Chained(l, c)
  {
    c :| LeadsFromRoot(l, c, v);
  }

  /** A used name that is kept for embedded modules, but not embedded, makes loading fail, whatever a search would find. */
  lemma ReservedBlocks(l: Library, v: Option<Name>, n: Name)
    requires Ready(l) && Reached(l, v) && n in Next(l, v) && ForEmbedded(n) && l.embedded(n) == Missing
    ensures !Loadable(l)
  {
    hide Reached, Next, UnitAt;
    NextReached(l, v, n);
    if Some(n) == Root(l).named {
      RootUsedAgain(l, v, n);
    } else {
      assert ModuleNamed(l, n) == Err(ReservedMissing(n));
      assert UnitFor(l, Some(n)).Err?;
    }
  }

  // ----- what a search can change -----

  /** Two libraries that differ only in what the search says of names that are embedded or kept for embedding. */
  ghost predicate SearchesAlike(l: Library, h: Library) {
    && h == l.(search := h.search)
    && forall n :: l.embedded(n) == Missing && !ForEmbedded(n) ==> l.search(n) == h.search(n)
  }

  lemma SameUnits(l: Library, h: Library, v: Option<Name>)
    requires SearchesAlike(l, h) && Ready(l)
    ensures Ready(h) && Root(h) == Root(l) && UnitFor(h, v) == UnitFor(l, v) && Next(h, v) == Next(l, v)
  {
    hide UnitAt, Fits;
    if v.Some? { assert ResolveUse(l, v.value) == ResolveUse(h, v.value); }
  }

  lemma SameUses(l: Library, h: Library, a: Option<Name>, b: Option<Name>)
    requires SearchesAlike(l, h) && Ready(l) && Ready(h)
    ensures Uses(h, a, b) <==> Uses(l, a, b)
  {
    hide UnitAt, Fits, Next, Ready, Root, SearchesAlike;
    SameUnits(l, h, a);
  }

  lemma SameReached(l: Library, h: Library, v: Option<Name>)
    requires SearchesAlike(l, h) && Ready(l) && Ready(h)
    ensures Reached(l, v) ==> Reached(h, v)
  {
    hide UnitAt, Fits, Next, Ready, Root, SearchesAlike, Uses;
    SameUnits(l, h, None);
    if Reached(l, v) {
      var c: seq<Option<Name>> :| LeadsFromRoot(l, c, v);
      forall k | 0 <= k < |c| - 1
        ensures Uses(h, c[k], c[k + 1])
      {
        assert Uses(l, c[k], c[k + 1]);
        SameUses(l, h, c[k], c[k + 1]);
      }
      assert LeadsFromRoot(h, c, v);
    }
  }

  lemma Backwards(l: Library, h: Library)
    requires SearchesAlike(l, h)
    ensures SearchesAlike(h, l)
  {
  }

  /** Such libraries load alike. */
  lemma SearchesLoadAlike(l: Library, h: Library)
    requires SearchesAlike(l, h) && Fits(l.world)
    ensures Loadable(l) <==> Loadable(h)
    ensures Ready(l) ==> Ready(h) && forall g :: Finished(l, g) <==> Finished(h, g)
  {
    hide UnitAt, Fits, Next, UnitFor, Reached, RootUnit, Finished, SearchesAlike;
    SameRoot(l, h);
    if RootUnit(l).Ok? {
      Backwards(l, h);
      SameUnits(l, h, None);
      forall v ensures UnitFor(h, v) == UnitFor(l, v) && Next(h, v) == Next(l, v) && (Reached(l, v) <==> Reached(h, v)) {
        SameUnits(l, h, v);
        SameReached(l, h, v);
        SameReached(h, l, v);
      }
      forall g ensures Finished(l, g) <==> Finished(h, g) { SameFinished(l, h, g); }
    }
  }

  lemma SameRoot(l: Library, h: Library)
    requires SearchesAlike(l, h) && Fits(l.world)
    ensures Fits(h.world) && RootUnit(h) == RootUnit(l)
  {
    hide UnitAt, Fits;
  }

  lemma SameFinished(l: Library, h: Library, g: Graph)
    requires Ready(l) && Ready(h) && Root(l) == Root(h)
    requires forall v :: UnitFor(h, v) == UnitFor(l, v) && Next(h, v) == Next(l, v) && (Reached(l, v) <==> Reached(h, v))
    ensures Finished(l, g) <==> Finished(h, g)
  {
    hide Ready, Root, UnitFor, Next, Reached, DependsOn, Before;
  }
}
