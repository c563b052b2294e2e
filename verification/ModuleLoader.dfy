/**
 * The loader of a whole compilation: a depth-first walk along USE that fills the module tables, the order and the
 * text.
 */
module ModuleLoader {
  import opened Wrappers
  import opened Includes
  import opened SourceLoader
  import opened Modules

  datatype Unit = Unit(program: Program, start: nat, end: nat)

  ghost predicate Stands(text: string, start: nat, end: nat, part: string) {
    start <= end <= |text| && text[start..end] == part
  }

  /** A module's span in the whole text holds the expanded text of its unit. */
  ghost predicate Spanned(l: Library, text: string, m: Loaded)
    requires Ready(l)
  {
    UnitFor(l, m.name).Ok? && Stands(text, m.start, m.end, UnitFor(l, m.name).value.draft.text)
  }

  ghost predicate WereRead(w: World, files: seq<Stored>) {
    forall i :: 0 <= i < |files| ==> files[i].origin in w.files && files[i].text == w.files[files[i].origin]
  }

  class CompilationLoader {
    const library: Library
    const sourceLoader: Loader
    const sourceMap: SourceMap
    var text: string
    var modules: seq<Loaded>
    var byPath: map<Name, nat>
    var active: seq<Name>
    var order: seq<nat>

    ghost function Tables(): Graph
      reads this
    {
      Graph(modules, byPath, active, order)
    }

    /** The text and its map are exact, every file has been read from the world, and files are numbered in order. */
    ghost predicate Valid()
      reads this, sourceLoader, sourceMap
    {
      && Fits(library.world) && sourceLoader.world == library.world && sourceLoader.active == []
      && Exact(sourceMap.With(text)) && WereRead(library.world, sourceMap.files)
      && NumberedFrom(sourceMap.files, 0) && sourceLoader.nextId == |sourceMap.files|
    }

    ghost predicate Spans()
      requires Ready(library)
      reads this
    {
      forall i :: 0 <= i < |modules| ==> Spanned(library, text, modules[i])
    }

    constructor (l: Library)
      requires Fits(l.world)
      ensures Valid() && library == l && Tables() == Graph([], map[], [], []) && text == ""
      ensures fresh(sourceLoader) && fresh(sourceMap)
    {
      library := l;
      sourceLoader := new Loader(l.world);
      sourceMap := new SourceMap();
      text, modules, byPath, active, order := "", [], map[], [], [];
      new;
      EmptyExact(sourceMap.With(text));
    }

    /** Appending the expansion of a file to the text, behind a line feed if there is text already. */
    method LoadUnit(origin: Origin) returns (r: Result<Unit, Fault>)
      requires Valid()
      modifies this`text, sourceLoader, sourceMap
      ensures r.Ok? ==> Valid()
      ensures match r
        case Ok(u) =>
          var expected := UnitAt(library.world, library.world.resolve(origin));
          && expected.Ok? && u.program == expected.value.program
          && Stands(text, u.start, u.end, expected.value.draft.text)
          && |old(text)| <= |text| && text[..|old(text)|] == old(text)
        case Err(f) => UnitAt(library.world, library.world.resolve(origin)) == Err(f)
    {
      hide At, Exact, Fits, Genuine;
      var resolved := library.world.resolve(origin);
      var expanded := sourceLoader.LoadExpandedSource(resolved, true);
      if expanded.Err? { return Err(Inclusion(expanded.error)); }
      var e := expanded.value;
      ExpansionExact(library.world, library.world.resolve(resolved), [], true);
      AllGenuine(library.world, library.world.resolve(resolved), e.sourceMap.files, e.sourceMap.With(e.source));
      ghost var d := sourceMap.With(text);
      if text != "" {
        FeedExact(d);
        text := text + "\n";
      }
      var offset := |text|;
      var program := library.world.parse(e.source);
      if program.None? { return Err(Malformed(resolved)); }
      AppendExpansion(e, offset);
      r := Ok(Unit(program.value, offset, |text|));
    }

    /** Adding an expansion's files, segments and text. */
    method AppendExpansion(e: Expanded, offset: nat)
      requires e.sourceMap != sourceMap && offset == |text|
      requires Exact(sourceMap.With(text)) && Exact(e.sourceMap.With(e.source))
      modifies this`text, sourceMap
      ensures text == old(text) + e.source && Exact(sourceMap.With(text))
      ensures sourceMap.files == old(sourceMap.files) + e.sourceMap.files
    {
      hide Exact;
      ghost var before := sourceMap.With(text);
      AttachedExact(before, e.sourceMap.With(e.source));
      sourceMap.AppendShifted(e.sourceMap, offset);
      text := text + e.source;
      assert sourceMap.With(text) == Attached(before, e.sourceMap.With(e.source));
    }

    /** The module a USE names: known, or loaded now with everything it uses. A fault that is reported is real. */
    method LoadUse(n: Name, ghost v: Option<Name>) returns (r: Result<nat, Fault>)
      requires Valid() && Ready(library) && Sane(library, Tables()) && Spans()
      requires Using(library, Tables(), v) && n in Next(library, v)
      modifies this, sourceLoader, sourceMap
      ensures match r
        case Ok(id) =>
          && Valid() && Sane(library, Tables()) && Spans() && Extends(old(Tables()), Tables())
          && id in order && n in byPath && byPath[n] == id
        case Err(f) => Real(library, f)
      decreases Unloaded(library.world, Tables()), 1
    {
      hide Exact, Fits, Next, Ready, Reached, Settled, Catalogued, Partitioned, Linked, ModuleNamed, Unloaded, Using,
           Stands, UnitFor, Real;
      ghost var g := Tables();
      for k := 0 to |active|
        invariant Tables() == g && Valid() && Spans() && forall j :: 0 <= j < k ==> active[j] != n
      {
        if active[k] == n {
          CycleIsReal(library, g, v, n, k);
          return Err(Cycle(active[k..] + [n]));
        }
      }
      if n in byPath {
        KnownInOrder(library, g, n);
        return Ok(byPath[n]);
      }
      UsingReached(library, g, v);
      NextReached(library, v, n);
      var loaded := LoadNamed(n);
      if loaded.Err? {
        FaultIsReal(library, g, n, loaded.error);
        return Err(loaded.error);
      }
      SpansLonger(library, old(text), text, modules);
      r := LoadModule(n, loaded.value, v);
    }

    /** Reading the file that a USE names: it must declare a module of that very name. */
    method LoadNamed(n: Name) returns (r: Result<Unit, Fault>)
      requires Valid()
      modifies this`text, sourceLoader, sourceMap
      ensures match r
        case Ok(u) =>
          var expected := ModuleNamed(library, n);
          && Valid() && expected.Ok? && u.program == expected.value.program
          && Stands(text, u.start, u.end, expected.value.draft.text)
          && |old(text)| <= |text| && text[..|old(text)|] == old(text)
        case Err(f) => ModuleNamed(library, n) == Err(f)
    {
      hide Exact, Fits, UnitAt, Stands;
      var found := ResolveUse(library, n);
      if found.Err? { return Err(found.error); }
      r := LoadUnit(found.value);
      if r.Err? { return r; }
      var u := r.value;
      if u.program.named.None? { return Err(LegacyUsed(n)); }
      if u.program.named.value != n { return Err(WrongModule(n, u.program.named.value)); }
    }

    /** Entering a module that was just read, loading what it uses, and finishing it. */
    method LoadModule(n: Name, u: Unit, ghost v: Option<Name>) returns (r: Result<nat, Fault>)
      requires Valid() && Ready(library) && Sane(library, Tables()) && Spans()
      requires Using(library, Tables(), v) && n in Next(library, v) && n !in byPath
      requires ModuleNamed(library, n).Ok? && u.program == ModuleNamed(library, n).value.program
      requires Stands(text, u.start, u.end, ModuleNamed(library, n).value.draft.text)
      modifies this, sourceLoader, sourceMap
      ensures match r
        case Ok(id) =>
          && Valid() && Sane(library, Tables()) && Spans() && Extends(old(Tables()), Tables())
          && id in order && n in byPath && byPath[n] == id
        case Err(f) => Real(library, f)
      decreases Unloaded(library.world, Tables()), 0
    {
      hide Exact, Fits, Next, Ready, Reached, Settled, Catalogued, Partitioned, Linked, ModuleNamed, Complete,
           DependsOn, Before, Unloaded,
           Real, IsUnit, UnitFor, Stands, Spanned, Extends, UsesOf;
      ghost var g := Tables();
      var id := |modules|;
      var m := Loaded(Some(n), u.program, u.start, u.end, []);
      ModuleIsUnit(library, g, n, m, v);
      UnitSpanned(library, text, n, m);
      UnloadedShrinks(library, g, n, m);
      OpenedSane(library, g, n, m, v);
      modules, byPath, active := modules + [m], byPath[n := id], active + [n];
      assert Tables() == Opened(g, n, m);
      NothingYet(library, Tables(), m);
      ghost var h := Tables();
      var fault := LoadDependencies(id, []);
      if fault.Some? { return Err(fault.value); }
      ghost var t := Tables();
      ClosedSane(library, t, id);
      active, order := active[..|active| - 1], order + [id];
      assert Tables() == Closed(t, id);
      ClosedExtends(g, n, m, h, t, id);
      r := Ok(id);
    }

    /** Loading what a module uses; afterwards its dependencies are complete. */
    method LoadDependencies(i: nat, ghost implied: seq<Name>) returns (fault: Option<Fault>)
      requires Valid() && Ready(library) && Sane(library, Tables()) && Spans()
      requires i < |modules| && Using(library, Tables(), modules[i].name) && Open(Tables(), i)
      requires implied + UsesOf(modules[i].program) == Next(library, modules[i].name)
      requires DependsOn(Tables(), modules[i].dependencies, implied) && Before(order, |order|, modules[i].dependencies)
      modifies this, sourceLoader, sourceMap
      ensures match fault
        case None => Valid() && Sane(library, Tables()) && Spans() && ExtendsBut(old(Tables()), Tables(), i)
            && Complete(library, Tables(), i)
        case Some(f) => Real(library, f)
      decreases Unloaded(library.world, Tables()), 3
    {
      hide Exact, Fits, Next, Ready, Reached, Settled, Catalogued, Partitioned, Linked, Unloaded, DependsOn, Before,
           Stands, UnitFor,
           Real, UsesOf, IsUnit;
      var uses := UsesOf(modules[i].program);
      ghost var g := Tables();
      assert implied + uses[..0] == implied;
      for k := 0 to |uses|
        invariant Valid() && Sane(library, Tables()) && Spans() && ExtendsBut(g, Tables(), i)
        invariant DependsOn(Tables(), modules[i].dependencies, implied + uses[..k])
        invariant Before(order, |order|, modules[i].dependencies)
      {
        UnloadedNoMoreBut(library.world, g, Tables(), i);
        assert uses[k] in implied + uses;
        ghost var before := Tables();
        fault := LoadDependency(i, uses[k], implied + uses[..k]);
        if fault.Some? { return; }
        assert implied + uses[..k + 1] == implied + uses[..k] + [uses[k]];
        ExtendsButTwice(g, before, Tables(), i);
      }
      assert uses[..|uses|] == uses;
      fault := None;
    }

    /** One use: the module it names becomes a dependency unless it is one already. */
    method LoadDependency(i: nat, n: Name, ghost names: seq<Name>) returns (fault: Option<Fault>)
      requires Valid() && Ready(library) && Sane(library, Tables()) && Spans()
      requires i < |modules| && Using(library, Tables(), modules[i].name) && Open(Tables(), i)
      requires n in Next(library, modules[i].name)
      requires DependsOn(Tables(), modules[i].dependencies, names) && Before(order, |order|, modules[i].dependencies)
      modifies this, sourceLoader, sourceMap
      ensures match fault
        case None =>
          && Valid() && Sane(library, Tables()) && Spans() && ExtendsBut(old(Tables()), Tables(), i)
          && DependsOn(Tables(), modules[i].dependencies, names + [n])
          && Before(order, |order|, modules[i].dependencies)
        case Some(f) => Real(library, f)
      decreases Unloaded(library.world, Tables()), 2
    {
      hide Exact, Fits, Next, Ready, Reached, Settled, Catalogued, Partitioned, Linked, Unloaded, DependsOn, Before,
           Using, Stands, UnitFor;
      ghost var before := Tables();
      var d := LoadUse(n, modules[i].name);
      if d.Err? { return Some(d.error); }
      ghost var after := Tables();
      assert after.modules[i] == before.modules[i];
      DependencyAdded(library, before, after, i, names, n, d.value);
      if d.value !in modules[i].dependencies {
        Record(i, d.value, names + [n], before);
      }
      fault := None;
    }

    /** Writing down one more dependency of an open module. */
    method Record(i: nat, d: nat, ghost names: seq<Name>, ghost before: Graph)
      requires Valid() && Ready(library) && Sane(library, Tables()) && Spans()
      requires i < |before.modules| && Open(before, i) && Extends(before, Tables())
      requires DependsOn(Tables(), before.modules[i].dependencies + [d], names)
      requires Before(order, |order|, before.modules[i].dependencies + [d])
      modifies this`modules
      ensures Valid() && Sane(library, Tables()) && Spans() && ExtendsBut(before, Tables(), i)
      ensures DependsOn(Tables(), modules[i].dependencies, names) && Before(order, |order|, modules[i].dependencies)
    {
      hide Exact, Fits, Next, Ready, Reached, Settled, Catalogued, Partitioned, Linked, DependsOn, Before, Stands,
           UnitFor, Open;
      ghost var after := Tables();
      StillOpen(before, after, i);
      assert after.modules[i] == before.modules[i];
      DependencySane(library, after, i, d);
      modules := modules[i := modules[i].(dependencies := modules[i].dependencies + [d])];
      assert Tables() == WithDependency(after, i, d);
      SameByPath(after, Tables(), modules[i].dependencies, names);
    }

    /** The root uses SYS without saying so where that is wanted, unless it is SYS itself. */
    method LoadImplicitSys() returns (fault: Option<Fault>)
      requires Valid() && Ready(library) && Sane(library, Tables()) && Spans()
      requires Using(library, Tables(), modules[0].name) && Open(Tables(), 0) && modules[0].dependencies == []
      modifies this, sourceLoader, sourceMap
      ensures match fault
        case None =>
          && Valid() && Sane(library, Tables()) && Spans() && ExtendsBut(old(Tables()), Tables(), 0)
          && DependsOn(Tables(), modules[0].dependencies, Implied(library))
          && Before(order, |order|, modules[0].dependencies)
        case Some(f) => Real(library, f)
    {
      hide Exact, Fits, Ready, Reached, Settled, Partitioned, Linked, Unloaded, DependsOn, Before, Using, Stands,
           UnitFor, Open, IsUnit,
           Next, Real, Root, UsesOf;
      ghost var before := Tables();
      NothingImplied(library, before);
      RootIsFirst(library, before);
      if !library.implicitSys || modules[0].name == Some(SYS) { return None; }
      var d := LoadUse(SYS, modules[0].name);
      if d.Err? { return Some(d.error); }
      hide Catalogued, Implied, Extends;
      ghost var after := Tables();
      DependencyAdded(library, before, after, 0, [], SYS, d.value);
      assert [] + [SYS] == [SYS] && [] + [d.value] == [d.value];
      Record(0, d.value, [SYS], before);
      fault := None;
    }

    /**
     * Loading everything: it succeeds exactly for loadable libraries; then the graph is finished, else the fault is
     * real.
     */
    method Load() returns (r: Result<Compilation, Fault>)
      requires Valid() && Tables() == Graph([], map[], [], []) && text == ""
      modifies this, sourceLoader, sourceMap
      ensures r.Ok? <==> Loadable(library)
      ensures match r
        case Ok(c) =>
          && Ready(library) && Valid() && Spans() && Finished(library, Tables())
          && c == Compilation(0, modules, order, text, sourceMap)
        case Err(f) => Real(library, f)
    {
      hide Exact, Fits, UnitAt, Reached, Settled, Partitioned, Linked, Unloaded, DependsOn, Before, Using, Stands,
           Open, IsUnit, Next, Finished, Loadable;
      var unit := LoadUnit(library.world.resolve(library.root));
      if unit.Err? {
        RealBlocks(library, unit.error);
        return Err(unit.error);
      }
      var u := unit.value;
      var m := Loaded(u.program.named, u.program, u.start, u.end, []);
      StartSane(library, m);
      modules := [m];
      if m.name.Some? {
        byPath, active := byPath[m.name.value := 0], [m.name.value];
      }
      assert Tables() == Started(m);
      var fault := LoadRoot();
      if fault.Some? {
        RealBlocks(library, fault.value);
        return Err(fault.value);
      }
      FinishedLoadable(library, Tables());
      r := Ok(Compilation(0, modules, order, text, sourceMap));
    }

    /** Loading what the root uses and finishing the root. */
    method LoadRoot() returns (fault: Option<Fault>)
      requires Valid() && Ready(library) && Sane(library, Tables()) && Spans() && |modules| == 1
        && modules[0].dependencies == []
      requires Using(library, Tables(), modules[0].name) && Open(Tables(), 0) && |active| <= 1
      requires active == [] <==> Root(library).named.None?
      modifies this, sourceLoader, sourceMap
      ensures match fault
        case None => Valid() && Spans() && Finished(library, Tables())
        case Some(f) => Real(library, f)
    {
      hide Exact, Fits, Ready, Reached, Settled, Partitioned, Linked, Unloaded, DependsOn, Before, Stands, UnitFor,
           Finished, Real;
      ghost var start := Tables();
      RootNext(library, start);
      fault := LoadImplicitSys();
      if fault.Some? { return; }
      ghost var middle := Tables();
      if modules[0].name.Some? {
        StillUsing(library, start, middle, 0);
        fault := LoadDependencies(0, Implied(library));
        if fault.Some? { return; }
        ghost var t := Tables();
        RootClosedFinished(library, t);
        active := active[..|active| - 1];
        order := order + [0];
        assert Tables() == t.(active := [], order := t.order + [0]);
      } else {
        RootClosedFinished(library, middle);
        order := order + [0];
        assert Tables() == middle.(active := [], order := middle.order + [0]);
      }
    }
  }

  datatype Compilation = Compilation(root: nat, modules: seq<Loaded>, order: seq<nat>, text: string, sourceMap: SourceMap)

  lemma StillOpen(g: Graph, h: Graph, i: nat)
    requires i < |g.modules| && Open(g, i) && Extends(g, h)
    ensures Open(h, i)
  {
    assert h.modules[..|g.modules|][i] == g.modules[i];
  }

  lemma StillUsing(l: Library, g: Graph, h: Graph, i: nat)
    requires Ready(l) && i < |g.modules| && Using(l, g, g.modules[i].name) && Open(g, i) && ExtendsBut(g, h, i)
    ensures Using(l, h, h.modules[i].name) && Open(h, i)
  {
  }

  lemma RootNext(l: Library, g: Graph)
    requires Ready(l) && Catalogued(l, g)
    ensures var m := g.modules[0];
      m.program == Root(l) && Implied(l) + UsesOf(m.program) == Next(l, m.name)
        && (m.name.None? ==> Implied(l) == Next(l, m.name))
  {
    hide Reached;
    assert IsUnit(l, g.modules[0]);
  }

  lemma StartSane(l: Library, m: Loaded)
    requires Ready(l) && m.name == Root(l).named && m.program == Root(l)
    ensures Sane(l, Started(m)) && Using(l, Started(m), m.name) && Open(Started(m), 0)
  {
    hide Catalogued, Next, Root, Ready;
    StartCatalogued(l, m);
    match m.name
    case None =>
    case Some(n) =>
  }

  lemma StartCatalogued(l: Library, m: Loaded)
    requires Ready(l) && m.name == Root(l).named && m.program == Root(l)
    ensures Catalogued(l, Started(m))
  {
    hide Reached, Next, Ready;
    RootReached(l);
    RootIsUnit(l, m);
    hide IsUnit, Root;
    match m.name
    case None =>
    case Some(n) =>
  }

  lemma RootIsUnit(l: Library, m: Loaded)
    requires Ready(l) && m.name == Root(l).named && m.program == Root(l) && Reached(l, m.name)
    ensures IsUnit(l, m)
  {
    hide Reached, UnitAt;
  }

  /** The tables with nothing but the root. */
  function Started(m: Loaded): Graph {
    match m.name
    case None => Graph([m], map[], [], [])
    case Some(n) => Graph([m], map[n := 0], [n], [])
  }

  lemma RootIsFirst(l: Library, g: Graph)
    requires Ready(l) && Catalogued(l, g)
    ensures g.modules[0].name == Root(l).named
    ensures l.implicitSys && Root(l).named != Some(SYS) ==> Implied(l) == [SYS] && SYS in Next(l, Root(l).named)
    ensures !(l.implicitSys && Root(l).named != Some(SYS)) ==> Implied(l) == []
  {
    hide IsUnit;
  }

  lemma NothingImplied(l: Library, g: Graph)
    requires Ready(l)
    ensures DependsOn(g, [], []) && Before(g.order, |g.order|, [])
  {
  }

  lemma SpansLonger(l: Library, text: string, more: string, modules: seq<Loaded>)
    requires Ready(l) && |text| <= |more| && more[..|text|] == text
    requires forall i :: 0 <= i < |modules| ==> Spanned(l, text, modules[i])
    ensures forall i :: 0 <= i < |modules| ==> Spanned(l, more, modules[i])
  {
    hide UnitFor, Ready;
    forall i | 0 <= i < |modules|
      ensures Spanned(l, more, modules[i])
    {
      assert Spanned(l, text, modules[i]);
      var m := modules[i];
      assert more[m.start..m.end] == more[..|text|][m.start..m.end];
    }
  }

  lemma ExtendsButTwice(a: Graph, b: Graph, c: Graph, i: nat)
    requires i < |a.modules| && ExtendsBut(a, b, i) && ExtendsBut(b, c, i)
    ensures ExtendsBut(a, c, i)
  {
    assert c.order[..|b.order|][..|a.order|] == c.order[..|a.order|];
  }

  lemma AllGenuine(w: World, o: Origin, files: seq<Stored>, d: Draft)
    requires d.files == Bare(files) && Genuine(w, o, d)
    ensures WereRead(w, files)
  {
    forall i | 0 <= i < |files|
      ensures files[i].origin in w.files && files[i].text == w.files[files[i].origin]
    {
      assert d.files[i] == File(files[i].origin, files[i].text);
    }
  }

  lemma KnownInOrder(l: Library, g: Graph, n: Name)
    requires Ready(l) && Sane(l, g) && n in g.byPath && n !in g.active
    ensures g.byPath[n] in g.order
  {
    hide Next, Settled;
    var i := g.byPath[n];
    assert g.modules[i].name == Some(n);
    assert !Open(g, i);
  }

  lemma NotRoot(l: Library, g: Graph, n: Name)
    requires Ready(l) && Catalogued(l, g) && n !in g.byPath
    ensures UnitFor(l, Some(n)) == ModuleNamed(l, n)
  {
  }

  lemma FaultIsReal(l: Library, g: Graph, n: Name, f: Fault)
    requires Ready(l) && Catalogued(l, g) && n !in g.byPath && Reached(l, Some(n)) && ModuleNamed(l, n) == Err(f)
    ensures Real(l, f)
  {
    NotRoot(l, g, n);
    NoCycleNamed(l, n);
    hide ModuleNamed, Reached;
    assert UnitFor(l, Some(n)) == Err(f);
  }

  lemma NoCycleNamed(l: Library, n: Name)
    requires Fits(l.world) && ModuleNamed(l, n).Err?
    ensures !ModuleNamed(l, n).error.Cycle?
  {
    hide At;
  }

  lemma ModuleIsUnit(l: Library, g: Graph, n: Name, m: Loaded, v: Option<Name>)
    requires Ready(l) && Sane(l, g) && n !in g.byPath && Using(l, g, v) && n in Next(l, v)
    requires ModuleNamed(l, n).Ok? && m.name == Some(n) && m.program == ModuleNamed(l, n).value.program
    ensures IsUnit(l, m) && UnitFor(l, m.name) == ModuleNamed(l, n) && Next(l, m.name) == UsesOf(m.program)
  {
    hide Reached, ModuleNamed;
    NotRoot(l, g, n);
    assert Some(n) != Root(l).named;
    UsingReached(l, g, v);
    NextReached(l, v, n);
  }

  lemma UnitSpanned(l: Library, text: string, n: Name, m: Loaded)
    requires Ready(l) && ModuleNamed(l, n).Ok? && UnitFor(l, m.name) == ModuleNamed(l, n)
    requires Stands(text, m.start, m.end, ModuleNamed(l, n).value.draft.text)
    ensures Spanned(l, text, m)
  {
    hide ModuleNamed, UnitFor, Stands;
  }

  lemma NothingYet(l: Library, g: Graph, m: Loaded)
    requires m.dependencies == []
    ensures DependsOn(g, m.dependencies, []) && Before(g.order, |g.order|, m.dependencies)
  {
  }

  lemma ClosedExtends(g: Graph, n: Name, m: Loaded, h: Graph, t: Graph, id: nat)
    requires h == Opened(g, n, m) && n !in g.byPath && id == |g.modules| && ExtendsBut(h, t, id)
    ensures Extends(g, Closed(t, id)) && id in Closed(t, id).order && n in t.byPath && t.byPath[n] == id
  {
    var c := Closed(t, id);
    assert c.modules[..|g.modules|] == g.modules;
    assert c.order[..|g.order|] == g.order;
    assert c.order[|t.order|] == id;
    assert t.byPath[n] == h.byPath[n];
    assert c.active == g.active;
  }

  lemma UnloadedNoMoreBut(w: World, g: Graph, h: Graph, i: nat)
    requires Fits(w) && i < |g.modules| && ExtendsBut(g, h, i)
    ensures Unloaded(w, h) <= Unloaded(w, g)
  {
    hide Declarable, Fits;
    var a, b := Declarable(w) - h.byPath.Keys, Declarable(w) - g.byPath.Keys;
    assert a <= b;
    SmallerSet(a, b);
  }

  lemma DependencyAdded(l: Library, g: Graph, h: Graph, i: nat, names: seq<Name>, n: Name, d: nat)
    requires Ready(l) && Catalogued(l, h) && Extends(g, h) && i < |g.modules|
    requires DependsOn(g, g.modules[i].dependencies, names) && Before(g.order, |g.order|, g.modules[i].dependencies)
    requires n in h.byPath && h.byPath[n] == d && d in h.order
    ensures var deps := g.modules[i].dependencies;
      var more := if d in deps then deps else deps + [d];
      DependsOn(h, more, names + [n]) && Before(h.order, |h.order|, more)
  {
    hide Catalogued;
    var deps := g.modules[i].dependencies;
    DependsLonger(g, h, deps, names);
    DependsOneMore(l, h, deps, names, n, d);
    hide DependsOn;
    forall x | x in deps ensures x in h.order { assert x in g.order[..|g.order|]; }
    assert h.order[..|h.order|] == h.order;
  }

  lemma SameByPath(g: Graph, h: Graph, dependencies: seq<nat>, names: seq<Name>)
    requires DependsOn(g, dependencies, names) && h.byPath == g.byPath
    ensures DependsOn(h, dependencies, names)
  {
  }
}
