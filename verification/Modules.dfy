/** Module graphs: what USE leads to, which libraries can be loaded, and what a loader keeps while it works. */
module Modules {
  import opened Wrappers
  import opened Includes

  /** The answer of a search for a module's file. */
  datatype Lookup = Missing | Found(origin: Origin) | Failed

  datatype Library = Library(world: World, embedded: Name -> Lookup, search: Name -> Lookup, root: Origin, implicitSys: bool)

  datatype Fault =
    | Cycle(chain: seq<Name>)
    | NotFound(name: Name)
    | ReservedMissing(name: Name)
    | LookupFailed(name: Name)
    | Inclusion(problems: seq<Problem>)
    | Malformed(origin: Origin)
    | LegacyUsed(name: Name)
    | WrongModule(name: Name, declared: Name)

  /** An expanded file together with its program. */
  datatype Parsed = Parsed(draft: Draft, program: Program)

  function UnitAt(w: World, o: Origin): Result<Parsed, Fault>
    requires Fits(w)
  {
    match At(w, w.resolve(o), [], true)
    case Err(problems) => Err(Inclusion(problems))
    case Ok(d) =>
      var p := w.parse(d.text);
      if p.None? then Err(Malformed(o)) else Ok(Parsed(d, p.value))
  }

  const SYS: Name := ["sys"]

  predicate Reserved(n: Name) { n != [] && (n[0] == "sys" || n[0] == "atari") }

  /** Embedded modules come first; reserved names are never searched for. */
  function ResolveUse(l: Library, n: Name): Result<Origin, Fault> {
    match l.embedded(n)
    case Found(o) => Ok(o)
    case Failed => Err(LookupFailed(n))
    case Missing =>
      if Reserved(n) then Err(ReservedMissing(n))
      else
        match l.search(n)
        case Found(o) => Ok(o)
        case Failed => Err(LookupFailed(n))
        case Missing => Err(NotFound(n))
  }

  function ModuleNamed(l: Library, n: Name): Result<Parsed, Fault>
    requires Fits(l.world)
  {
    match ResolveUse(l, n)
    case Err(f) => Err(f)
    case Ok(o) =>
      match UnitAt(l.world, l.world.resolve(o))
      case Err(f) => Err(f)
      case Ok(u) =>
        if u.program.named.None? then Err(LegacyUsed(n))
        else if u.program.named.value != n then Err(WrongModule(n, u.program.named.value))
        else Ok(u)
  }

  function RootUnit(l: Library): Result<Parsed, Fault>
    requires Fits(l.world)
  {
    UnitAt(l.world, l.world.resolve(l.world.resolve(l.root)))
  }

  ghost predicate Ready(l: Library) { Fits(l.world) && RootUnit(l).Ok? }

  function Root(l: Library): Program
    requires Ready(l)
  {
    RootUnit(l).value.program
  }

  /** The unit of the root, or of the module of a name. */
  function UnitFor(l: Library, v: Option<Name>): Result<Parsed, Fault>
    requires Ready(l)
  {
    if v == Root(l).named || v.None? then RootUnit(l) else ModuleNamed(l, v.value)
  }

  function UsesOf(p: Program): seq<Name> { if p.named.Some? then p.uses else [] }

  /** The root uses SYS without saying so, unless it is SYS. */
  function Implied(l: Library): seq<Name>
    requires Ready(l)
  {
    if l.implicitSys && Root(l).named != Some(SYS) then [SYS] else []
  }

  function Next(l: Library, v: Option<Name>): seq<Name>
    requires Ready(l)
  {
    if v == Root(l).named then Implied(l) + UsesOf(Root(l))
    else
      var u := UnitFor(l, v);
      if u.Ok? then UsesOf(u.value.program) else []
  }

  predicate Uses(l: Library, a: Option<Name>, b: Option<Name>)
    requires Ready(l)
  {
    b.Some? && b.value in Next(l, a)
  }

  ghost predicate Chained(l: Library, c: seq<Option<Name>>)
    requires Ready(l)
  {
    forall k :: 0 <= k < |c| - 1 ==> Uses(l, c[k], c[k + 1])
  }

  ghost predicate LeadsFromRoot(l: Library, c: seq<Option<Name>>, v: Option<Name>)
    requires Ready(l)
  {
    c != [] && c[0] == Root(l).named && c[|c| - 1] == v && Chained(l, c)
  }

  ghost predicate Reached(l: Library, v: Option<Name>)
    requires Ready(l)
  {
    exists c :: LeadsFromRoot(l, c, v)
  }

  lemma RootReached(l: Library)
    requires Ready(l)
    ensures Reached(l, Root(l).named)
  {
    assert LeadsFromRoot(l, [Root(l).named], Root(l).named);
  }

  lemma NextReached(l: Library, v: Option<Name>, n: Name)
    requires Ready(l) && Reached(l, v) && n in Next(l, v)
    ensures Reached(l, Some(n))
  {
    hide Root;
    assert Uses(l, v, Some(n));
    hide Next, Uses;
    var c: seq<Option<Name>> :| LeadsFromRoot(l, c, v);
    ChainLonger(l, c, Some(n));
    assert LeadsFromRoot(l, c + [Some(n)], Some(n));
  }

  lemma ChainLonger(l: Library, c: seq<Option<Name>>, v: Option<Name>)
    requires Ready(l) && c != [] && Chained(l, c) && Uses(l, c[|c| - 1], v)
    ensures Chained(l, c + [v])
  {
    hide Uses, Ready;
    var d := c + [v];
    forall k | 0 <= k < |d| - 1
      ensures Uses(l, d[k], d[k + 1])
    {
      if k < |c| - 1 { assert Uses(l, c[k], c[k + 1]); }
    }
  }

  /** A closed chain of modules, each using the next. */
  ghost predicate Ring(l: Library, c: seq<Name>)
    requires Ready(l)
  {
    |c| > 1 && c[0] == c[|c| - 1] && forall k :: 0 <= k < |c| - 1 ==> c[k + 1] in Next(l, Some(c[k]))
  }

  /** Every module that is used, however indirectly, is available, and none uses itself, however indirectly. */
  ghost predicate Loadable(l: Library)
    requires Fits(l.world)
  {
    && RootUnit(l).Ok?
    && (forall n :: Reached(l, Some(n)) ==> UnitFor(l, Some(n)).Ok?)
    && forall c :: Ring(l, c) ==> !Reached(l, Some(c[0]))
  }

  /** What a fault says. */
  ghost predicate Real(l: Library, f: Fault)
    requires Fits(l.world)
  {
    if RootUnit(l).Err? then f == RootUnit(l).error
    else if f.Cycle? then Ring(l, f.chain) && Reached(l, Some(f.chain[0]))
    else exists n :: Reached(l, Some(n)) && UnitFor(l, Some(n)) == Err(f)
  }

  lemma RealBlocks(l: Library, f: Fault)
    requires Fits(l.world) && Real(l, f)
    ensures !Loadable(l)
  {
  }

  // ----- the loader's tables -----

  datatype Loaded = Loaded(name: Option<Name>, program: Program, start: nat, end: nat, dependencies: seq<nat>)

  datatype Graph = Graph(modules: seq<Loaded>, byPath: map<Name, nat>, active: seq<Name>, order: seq<nat>)

  ghost predicate Distinct<T>(s: seq<T>) { forall i, j :: 0 <= i < j < |s| ==> s[i] != s[j] }

  ghost predicate IsUnit(l: Library, m: Loaded)
    requires Ready(l)
  {
    UnitFor(l, m.name).Ok? && m.program == UnitFor(l, m.name).value.program && Reached(l, m.name)
  }

  /** The root is module 0, every other module has a name of its own, and names lead to modules. */
  ghost predicate Catalogued(l: Library, g: Graph)
    requires Ready(l)
  {
    && g.modules != [] && g.modules[0].name == Root(l).named
    && (forall i :: 0 <= i < |g.modules| ==> IsUnit(l, g.modules[i]))
    && (forall i :: 0 < i < |g.modules| ==> g.modules[i].name.Some?)
    && (forall i :: 0 <= i < |g.modules| && g.modules[i].name.Some? ==>
          g.modules[i].name.value in g.byPath && g.byPath[g.modules[i].name.value] == i)
    && (forall n :: n in g.byPath ==> g.byPath[n] < |g.modules| && g.modules[g.byPath[n]].name == Some(n))
  }

  predicate Open(g: Graph, i: nat)
    requires i < |g.modules|
  {
    g.modules[i].name.Some? ==> g.modules[i].name.value in g.active
  }

  /** Every module is either still open or in the order, once. */
  ghost predicate Partitioned(g: Graph) {
    && Distinct(g.active) && (forall n :: n in g.active ==> n in g.byPath)
    && Distinct(g.order)
    && (forall k :: 0 <= k < |g.order| ==> g.order[k] < |g.modules|)
    && Divided(g)
  }

  ghost predicate Divided(g: Graph) { forall i :: 0 <= i < |g.modules| ==> (i in g.order <==> !Open(g, i)) }

  function Firsts(s: seq<Name>): (r: seq<Name>)
    ensures forall n :: n in r <==> n in s
  {
    if s == [] then []
    else
      var last := s[|s| - 1];
      var r := Firsts(s[..|s| - 1]);
      assert s == s[..|s| - 1] + [last];
      if last in r then r else r + [last]
  }

  /** Dependencies are the modules of the names used, each once, in the order of first use. */
  predicate DependsOn(g: Graph, dependencies: seq<nat>, names: seq<Name>) {
    var firsts := Firsts(names);
    |dependencies| == |firsts| && forall k :: 0 <= k < |firsts| ==>
      firsts[k] in g.byPath && g.byPath[firsts[k]] == dependencies[k]
  }

  predicate Before(order: seq<nat>, k: nat, dependencies: seq<nat>)
    requires k <= |order|
  {
    forall d :: d in dependencies ==> d in order[..k]
  }

  /** A module in the order has all its dependencies, and they come before it. */
  ghost predicate Settled(l: Library, g: Graph)
    requires Ready(l)
  {
    forall k :: 0 <= k < |g.order| ==> g.order[k] < |g.modules| && SettledAt(l, g, k)
  }

  predicate SettledAt(l: Library, g: Graph, k: nat)
    requires Ready(l) && k < |g.order| && g.order[k] < |g.modules|
  {
    var m := g.modules[g.order[k]];
    Before(g.order, k, m.dependencies) && DependsOn(g, m.dependencies, Next(l, m.name))
  }

  /** The open modules form a chain of uses that starts at the root. */
  ghost predicate Linked(l: Library, active: seq<Name>)
    requires Ready(l)
  {
    && (forall k :: 0 <= k < |active| - 1 ==> active[k + 1] in Next(l, Some(active[k])))
    && (active != [] ==> if Root(l).named.Some? then active[0] == Root(l).named.value else active[0] in Next(l, None))
  }

  ghost predicate Sane(l: Library, g: Graph)
    requires Ready(l)
  {
    Catalogued(l, g) && Partitioned(g) && Settled(l, g) && Linked(l, g.active)
  }

  /** The module whose uses are being loaded. */
  predicate Using(l: Library, g: Graph, v: Option<Name>)
    requires Ready(l)
  {
    if g.active == [] then v.None? && Root(l).named.None? else v == Some(g.active[|g.active| - 1])
  }

  /** What one graph keeps of an earlier one. */
  ghost predicate Extends(g: Graph, h: Graph) {
    && |g.modules| <= |h.modules| && h.modules[..|g.modules|] == g.modules
    && (forall n :: n in g.byPath ==> n in h.byPath && h.byPath[n] == g.byPath[n])
    && |g.order| <= |h.order| && h.order[..|g.order|] == g.order
    && h.active == g.active
  }

  /** The same, but for further dependencies of one module. */
  ghost predicate ExtendsBut(g: Graph, h: Graph, i: nat)
    requires i < |g.modules|
  {
    && |g.modules| <= |h.modules| && (forall j :: 0 <= j < |g.modules| && j != i ==> h.modules[j] == g.modules[j])
    && h.modules[i] == g.modules[i].(dependencies := h.modules[i].dependencies)
    && (forall n :: n in g.byPath ==> n in h.byPath && h.byPath[n] == g.byPath[n])
    && |g.order| <= |h.order| && h.order[..|g.order|] == g.order
    && h.active == g.active
  }

  // ----- opening and closing a module -----

  function Opened(g: Graph, n: Name, m: Loaded): Graph {
    Graph(g.modules + [m], g.byPath[n := |g.modules|], g.active + [n], g.order)
  }

  lemma OpenedCatalogued(l: Library, g: Graph, n: Name, m: Loaded)
    requires Ready(l) && Catalogued(l, g) && n !in g.byPath && m.name == Some(n) && IsUnit(l, m)
    ensures Catalogued(l, Opened(g, n, m))
  {
    hide IsUnit, Root, Ready;
  }

  lemma OpenedPartitioned(l: Library, g: Graph, n: Name, m: Loaded)
    requires Ready(l) && Catalogued(l, g) && Partitioned(g) && n !in g.byPath && m.name == Some(n)
    ensures Partitioned(Opened(g, n, m))
  {
    hide IsUnit;
    var h := Opened(g, n, m);
    forall i | 0 <= i < |h.modules|
      ensures i in h.order <==> !Open(h, i)
    {
      if i < |g.modules| {
        assert h.modules[i] == g.modules[i];
        assert Open(h, i) <==> Open(g, i);
      } else {
        assert h.active[|g.active|] == n;
      }
    }
  }

  lemma DependsLonger(g: Graph, h: Graph, dependencies: seq<nat>, names: seq<Name>)
    requires DependsOn(g, dependencies, names) && forall n :: n in g.byPath ==>
      n in h.byPath && h.byPath[n] == g.byPath[n]
    ensures DependsOn(h, dependencies, names)
  {
  }

  lemma OpenedSettled(l: Library, g: Graph, n: Name, m: Loaded)
    requires Ready(l) && Settled(l, g) && n !in g.byPath
    ensures Settled(l, Opened(g, n, m))
  {
    hide Next, DependsOn;
    var h := Opened(g, n, m);
    forall k | 0 <= k < |h.order|
      ensures h.order[k] < |h.modules| && SettledAt(l, h, k)
    {
      assert SettledAt(l, g, k);
      DependsLonger(g, h, g.modules[g.order[k]].dependencies, Next(l, g.modules[g.order[k]].name));
    }
  }

  lemma OpenedLinked(l: Library, active: seq<Name>, n: Name, v: Option<Name>)
    requires Ready(l) && Linked(l, active) && n in Next(l, v)
    requires if active == [] then v.None? && Root(l).named.None? else v == Some(active[|active| - 1])
    ensures Linked(l, active + [n])
  {
    hide Next;
  }

  /** Starting on a module that is used keeps the tables sane. */
  lemma OpenedSane(l: Library, g: Graph, n: Name, m: Loaded, v: Option<Name>)
    requires Ready(l) && Sane(l, g) && n !in g.byPath && m.name == Some(n) && IsUnit(l, m) && Using(l, g, v)
      && n in Next(l, v)
    ensures Sane(l, Opened(g, n, m))
  {
    hide Catalogued, Partitioned, Settled, Linked, Next;
    OpenedCatalogued(l, g, n, m);
    OpenedPartitioned(l, g, n, m);
    OpenedSettled(l, g, n, m);
    OpenedLinked(l, g.active, n, v);
  }

  function WithDependency(g: Graph, i: nat, d: nat): Graph
    requires i < |g.modules|
  {
    g.(modules := g.modules[i := g.modules[i].(dependencies := g.modules[i].dependencies + [d])])
  }

  /** Recording a dependency of an open module keeps the tables sane. */
  lemma DependencySane(l: Library, g: Graph, i: nat, d: nat)
    requires Ready(l) && Sane(l, g) && i < |g.modules| && Open(g, i)
    ensures Sane(l, WithDependency(g, i, d))
  {
    hide Catalogued, Partitioned, Settled, Linked;
    DependencyCatalogued(l, g, i, d);
    DependencyPartitioned(g, i, d);
    DependencySettled(l, g, i, d);
  }

  lemma DependencyCatalogued(l: Library, g: Graph, i: nat, d: nat)
    requires Ready(l) && Catalogued(l, g) && i < |g.modules|
    ensures Catalogued(l, WithDependency(g, i, d))
  {
    hide Reached, UnitFor, Ready, Root;
    var h := WithDependency(g, i, d);
    forall j | 0 <= j < |h.modules|
      ensures h.modules[j].name == g.modules[j].name && IsUnit(l, h.modules[j])
    {
      assert IsUnit(l, g.modules[j]);
    }
    hide IsUnit;
  }

  lemma DependencyPartitioned(g: Graph, i: nat, d: nat)
    requires Partitioned(g) && i < |g.modules|
    ensures Partitioned(WithDependency(g, i, d))
  {
    var h := WithDependency(g, i, d);
    forall j | 0 <= j < |h.modules|
      ensures Open(h, j) <==> Open(g, j)
    {
    }
    hide Open;
  }

  lemma DependencySettled(l: Library, g: Graph, i: nat, d: nat)
    requires Ready(l) && Settled(l, g) && Partitioned(g) && i < |g.modules| && Open(g, i)
    ensures Settled(l, WithDependency(g, i, d))
  {
    hide Next, DependsOn;
    var h := WithDependency(g, i, d);
    forall k | 0 <= k < |h.order|
      ensures h.order[k] < |h.modules| && SettledAt(l, h, k)
    {
      assert SettledAt(l, g, k) && g.order[k] in g.order && g.order[k] != i;
      DependsLonger(g, h, g.modules[g.order[k]].dependencies, Next(l, g.modules[g.order[k]].name));
    }
  }

  function Closed(g: Graph, i: nat): Graph
    requires g.active != []
  {
    g.(active := g.active[..|g.active| - 1], order := g.order + [i])
  }

  /** The dependencies of a module are complete and in the order. */
  predicate Complete(l: Library, g: Graph, i: nat)
    requires Ready(l) && i < |g.modules|
  {
    Before(g.order, |g.order|, g.modules[i].dependencies)
      && DependsOn(g, g.modules[i].dependencies, Next(l, g.modules[i].name))
  }

  lemma AppendedSettled(l: Library, g: Graph, h: Graph, i: nat)
    requires Ready(l) && Settled(l, g) && i < |g.modules| && Complete(l, g, i)
    requires h.modules == g.modules && h.byPath == g.byPath && h.order == g.order + [i]
    ensures Settled(l, h)
  {
    hide Next, DependsOn;
    forall k | 0 <= k < |h.order|
      ensures h.order[k] < |h.modules| && SettledAt(l, h, k)
    {
      assert h.order[..k] == g.order[..k];
      if k < |g.order| { assert SettledAt(l, g, k); }
      DependsLonger(g, h, g.modules[h.order[k]].dependencies, Next(l, g.modules[h.order[k]].name));
    }
  }

  lemma OnlyOneNamed(l: Library, g: Graph, i: nat, n: Name)
    requires Ready(l) && Catalogued(l, g) && i < |g.modules| && g.modules[i].name == Some(n)
    ensures forall j :: 0 <= j < |g.modules| && j != i ==> g.modules[j].name != Some(n)
  {
    hide IsUnit;
  }

  lemma ClosedPartitioned(l: Library, g: Graph, i: nat)
    requires Ready(l) && Catalogued(l, g) && Partitioned(g) && g.active != [] && i < |g.modules|
    requires g.modules[i].name == Some(g.active[|g.active| - 1])
    ensures Partitioned(Closed(g, i))
  {
    hide Divided, Catalogued;
    ClosedDivided(l, g, i);
    var init, top := g.active[..|g.active| - 1], g.active[|g.active| - 1];
    assert forall n :: n in init ==> n in g.active;
  }

  lemma ClosedDivided(l: Library, g: Graph, i: nat)
    requires Ready(l) && Catalogued(l, g) && Distinct(g.active) && Divided(g) && g.active != [] && i < |g.modules|
    requires g.modules[i].name == Some(g.active[|g.active| - 1])
    ensures Divided(Closed(g, i)) && i !in g.order
  {
    var h, top := Closed(g, i), g.active[|g.active| - 1];
    OnlyOneNamed(l, g, i, top);
    hide Catalogued;
    NoLonger(g.active, top);
    assert forall j :: j in h.order <==> j in g.order || j == i;
    forall j | 0 <= j < |h.modules|
      ensures j in h.order <==> !Open(h, j)
    {
      assert Open(h, j) <==> Open(g, j) && j != i;
    }
  }

  lemma NoLonger(active: seq<Name>, top: Name)
    requires Distinct(active) && active != [] && top == active[|active| - 1]
    ensures forall n :: n in active[..|active| - 1] <==> n in active && n != top
  {
    var init := active[..|active| - 1];
    assert active == init + [top];
  }

  /** Finishing a module whose dependencies are complete keeps the tables sane. */
  lemma ClosedSane(l: Library, g: Graph, i: nat)
    requires Ready(l) && Sane(l, g) && g.active != [] && i < |g.modules| && Complete(l, g, i)
    requires g.modules[i].name == Some(g.active[|g.active| - 1])
    ensures Sane(l, Closed(g, i))
  {
    hide Next, Complete, Catalogued, Partitioned, Settled, Linked, Root;
    ClosedPartitioned(l, g, i);
    AppendedSettled(l, g, Closed(g, i), i);
    ClosedCatalogued(l, g, i);
    ClosedLinked(l, g.active);
  }

  lemma ClosedCatalogued(l: Library, g: Graph, i: nat)
    requires Ready(l) && Catalogued(l, g) && g.active != []
    ensures Catalogued(l, Closed(g, i))
  {
    hide IsUnit;
  }

  lemma ClosedLinked(l: Library, active: seq<Name>)
    requires Ready(l) && Linked(l, active) && active != []
    ensures Linked(l, active[..|active| - 1])
  {
    hide Next;
  }

  // ----- one more use -----

  lemma FirstsOneMore(s: seq<Name>, n: Name)
    ensures Firsts(s + [n]) == if n in Firsts(s) then Firsts(s) else Firsts(s) + [n]
  {
    assert (s + [n])[..|s|] == s;
  }

  /** A use of a known module adds a dependency exactly when the module is not among them. */
  lemma DependsOneMore(l: Library, g: Graph, dependencies: seq<nat>, names: seq<Name>, n: Name, d: nat)
    requires Ready(l) && Catalogued(l, g) && DependsOn(g, dependencies, names) && n in g.byPath && g.byPath[n] == d
    ensures DependsOn(g, if d in dependencies then dependencies else dependencies + [d], names + [n])
  {
    hide Firsts, IsUnit;
    FirstsOneMore(names, n);
    var firsts := Firsts(names);
    forall k | 0 <= k < |firsts| && firsts[k] == n ensures d in dependencies { assert dependencies[k] == d; }
    if d in dependencies {
      var k :| 0 <= k < |dependencies| && dependencies[k] == d;
      assert g.modules[g.byPath[firsts[k]]].name == Some(firsts[k]);
      assert firsts[k] == n;
    }
  }

  // ----- what a finished graph means -----

  /** All modules that are used, however indirectly, once each, dependencies before their users and the root last. */
  ghost predicate Finished(l: Library, g: Graph)
    requires Ready(l)
  {
    && Catalogued(l, g) && Settled(l, g)
    && g.order != [] && g.order[|g.order| - 1] == 0
    && Distinct(g.order) && (forall i :: i in g.order <==> 0 <= i < |g.modules|)
  }

  lemma RootClosedFinished(l: Library, g: Graph)
    requires Ready(l) && Sane(l, g) && |g.active| <= 1 && Complete(l, g, 0)
    requires g.active == [] <==> Root(l).named.None?
    ensures Finished(l, g.(active := [], order := g.order + [0]))
  {
    hide Next, Complete, IsUnit, DependsOn, SettledAt, Divided, Linked, Root, Ready;
    var h := g.(active := [], order := g.order + [0]);
    AppendedSettled(l, g, h, 0);
    OnlyRootLeft(l, g);
    hide Settled, Partitioned;
    assert Distinct(h.order) by { assert 0 !in g.order && Distinct(g.order); }
    assert forall i :: i in h.order <==> i in g.order || i == 0;
    assert h.order[|h.order| - 1] == 0;
  }

  lemma OnlyRootLeft(l: Library, g: Graph)
    requires Ready(l) && Sane(l, g) && |g.active| <= 1 && (g.active == [] <==> Root(l).named.None?)
    ensures Distinct(g.order) && forall i :: i in g.order <==> 0 < i < |g.modules|
  {
    hide Next, IsUnit, Settled;
    assert Open(g, 0) by { assert Linked(l, g.active); }
    forall i | 0 < i < |g.modules| ensures i in g.order { OnlyRootOpen(l, g, i); }
    forall i | i in g.order ensures 0 < i < |g.modules| { assert i < |g.modules|; }
  }

  lemma OnlyRootOpen(l: Library, g: Graph, i: nat)
    requires Ready(l) && Sane(l, g) && |g.active| <= 1 && 0 < i < |g.modules|
      && (g.active == [] <==> Root(l).named.None?)
    ensures !Open(g, i)
  {
    hide Next, IsUnit, Settled, Partitioned;
    var n := g.modules[i].name.value;
    assert n in g.byPath && g.byPath[n] == i;
    assert Root(l).named.Some? ==> g.byPath[Root(l).named.value] == 0;
  }

  /** The module at a position of the order. */
  predicate InPlace(g: Graph, k: nat, v: Option<Name>) {
    k < |g.order| && g.order[k] < |g.modules| && g.modules[g.order[k]].name == v
  }

  /** The module of a name that a finished module uses comes earlier in the order. */
  lemma UsedEarlier(l: Library, g: Graph, k: nat, v: Option<Name>, n: Name) returns (j: nat)
    requires Ready(l) && Finished(l, g) && InPlace(g, k, v) && n in Next(l, v)
    ensures j < k && InPlace(g, j, Some(n))
  {
    hide Next, IsUnit, Firsts;
    assert SettledAt(l, g, k);
    var m := g.modules[g.order[k]];
    var firsts := Firsts(Next(l, m.name));
    var i :| 0 <= i < |firsts| && firsts[i] == n;
    var d := m.dependencies[i];
    assert d in m.dependencies && d in g.order[..k];
    j :| 0 <= j < k && g.order[j] == d;
  }

  lemma OrderInRange(l: Library, g: Graph)
    requires Ready(l) && Finished(l, g)
    ensures g.order != [] && (forall k :: 0 <= k < |g.order| ==> g.order[k] < |g.modules|)
    ensures g.modules[g.order[|g.order| - 1]].name == Root(l).named
  {
    hide Next, SettledAt, IsUnit;
  }

  /** Every name along a chain of uses has a module, further and further to the front. */
  lemma {:induction false} ChainDescends(l: Library, g: Graph, c: seq<Option<Name>>, k: nat) returns (j: nat)
    requires Ready(l) && Finished(l, g) && c != [] && Chained(l, c) && InPlace(g, k, c[0])
    ensures j <= k && InPlace(g, j, c[|c| - 1]) && (|c| > 1 ==> j < k)
    decreases |c|
  {
    hide Finished, Next, Ready;
    OrderInRange(l, g);
    j := k;
    if |c| > 1 {
      assert Uses(l, c[0], c[1]);
      var i := UsedEarlier(l, g, k, c[0], c[1].value);
      hide Uses;
      var d := c[1..];
      forall q | 0 <= q < |d| - 1 ensures Uses(l, d[q], d[q + 1]) { assert Uses(l, c[q + 1], c[q + 2]); }
      j := ChainDescends(l, g, d, i);
    }
  }

  /** A reachable module is in a finished graph. */
  lemma ReachedIsLoaded(l: Library, g: Graph, v: Option<Name>) returns (k: nat)
    requires Ready(l) && Finished(l, g) && Reached(l, v)
    ensures InPlace(g, k, v)
  {
    hide Next, Finished, Chained;
    OrderInRange(l, g);
    var c: seq<Option<Name>> :| LeadsFromRoot(l, c, v);
    hide Ready, Root;
    k := ChainDescends(l, g, c, |g.order| - 1);
  }

  function Wrapped(c: seq<Name>): (r: seq<Option<Name>>)
    ensures |r| == |c| && forall k :: 0 <= k < |c| ==> r[k] == Some(c[k])
  {
    seq(|c|, k requires 0 <= k < |c| => Some(c[k]))
  }

  lemma NameOnce(l: Library, g: Graph, j: nat, k: nat, n: Name)
    requires Ready(l) && Finished(l, g) && InPlace(g, j, Some(n)) && InPlace(g, k, Some(n))
    ensures j == k
  {
    hide Settled, IsUnit;
    assert g.byPath[n] == g.order[j] && g.byPath[n] == g.order[k];
  }

  lemma NoRing(l: Library, g: Graph, c: seq<Name>)
    requires Ready(l) && Finished(l, g)
    ensures !(Ring(l, c) && Reached(l, Some(c[0])))
  {
    hide Next, Finished, Reached, InPlace;
    if Ring(l, c) && Reached(l, Some(c[0])) {
      var k := ReachedIsLoaded(l, g, Some(c[0]));
      var j := RingDescends(l, g, c, k);
      NameOnce(l, g, j, k, c[0]);
    }
  }

  lemma RingDescends(l: Library, g: Graph, c: seq<Name>, k: nat) returns (j: nat)
    requires Ready(l) && Finished(l, g) && Ring(l, c) && InPlace(g, k, Some(c[0]))
    ensures j < k && InPlace(g, j, Some(c[0]))
  {
    hide Next, Finished, InPlace;
    var w := Wrapped(c);
    assert Chained(l, w) by {
      forall q | 0 <= q < |w| - 1 ensures Uses(l, w[q], w[q + 1]) { assert c[q + 1] in Next(l, Some(c[q])); }
    }
    j := ChainDescends(l, g, w, k);
  }

  /** A graph can only be finished for a loadable library. */
  lemma FinishedLoadable(l: Library, g: Graph)
    requires Ready(l) && Finished(l, g)
    ensures Loadable(l)
  {
    hide Finished, Reached, InPlace, UnitFor;
    forall n | Reached(l, Some(n))
      ensures UnitFor(l, Some(n)).Ok?
    {
      var k := ReachedIsLoaded(l, g, Some(n));
      PlaceIsUnit(l, g, k, Some(n));
    }
    forall c | Ring(l, c)
      ensures !Reached(l, Some(c[0]))
    {
      NoRing(l, g, c);
    }
  }

  lemma PlaceIsUnit(l: Library, g: Graph, k: nat, v: Option<Name>)
    requires Ready(l) && Finished(l, g) && InPlace(g, k, v)
    ensures UnitFor(l, v).Ok?
  {
    hide Settled, UnitFor, Reached;
    assert IsUnit(l, g.modules[g.order[k]]);
  }

  /** A finished graph holds exactly the modules that are reachable. */
  lemma FinishedExactly(l: Library, g: Graph, v: Option<Name>)
    requires Ready(l) && Finished(l, g)
    ensures Reached(l, v) <==> exists i :: 0 <= i < |g.modules| && g.modules[i].name == v
  {
    hide Settled, UnitFor, Reached;
    if Reached(l, v) {
      var k := ReachedIsLoaded(l, g, v);
      assert g.modules[g.order[k]].name == v;
    }
    forall i | 0 <= i < |g.modules| && g.modules[i].name == v ensures Reached(l, v) { assert IsUnit(l, g.modules[i]); }
  }

  // ----- the open modules -----

  lemma {:induction false} ActiveReached(l: Library, active: seq<Name>, k: nat)
    requires Ready(l) && Linked(l, active) && k < |active|
    ensures Reached(l, Some(active[k]))
  {
    hide Next, Reached;
    if k == 0 {
      RootReached(l);
      if Root(l).named.None? { NextReached(l, None, active[0]); }
    } else {
      ActiveReached(l, active, k - 1);
      NextReached(l, Some(active[k - 1]), active[k]);
    }
  }

  lemma UsingReached(l: Library, g: Graph, v: Option<Name>)
    requires Ready(l) && Linked(l, g.active) && Using(l, g, v)
    ensures Reached(l, v)
  {
    hide Next, Reached, Linked;
    if g.active == [] { RootReached(l); } else { ActiveReached(l, g.active, |g.active| - 1); }
  }

  /** Using an open module closes a real cycle: the chain from that module to the user and back. */
  lemma CycleIsReal(l: Library, g: Graph, v: Option<Name>, n: Name, k: nat)
    requires Ready(l) && Linked(l, g.active) && Using(l, g, v) && n in Next(l, v) && k < |g.active| && g.active[k] == n
    ensures Real(l, Cycle(g.active[k..] + [n]))
  {
    hide Next, Reached, Linked, Ring;
    ActiveReached(l, g.active, k);
    CycleIsRing(l, g.active, n, k);
  }

  lemma CycleIsRing(l: Library, active: seq<Name>, n: Name, k: nat)
    requires Ready(l) && Linked(l, active) && k < |active| && active[k] == n && n in Next(l, Some(active[|active| - 1]))
    ensures Ring(l, active[k..] + [n])
  {
    hide Next, Ready;
    var chain := active[k..] + [n];
    forall j | 0 <= j < |chain| - 1
      ensures chain[j + 1] in Next(l, Some(chain[j]))
    {
      if j < |chain| - 2 { assert active[k + j + 1] in Next(l, Some(active[k + j])); }
    }
  }

  // ----- only so many modules -----

  ghost function DeclaredAt(w: World, o: Origin): Option<Name>
    requires Fits(w)
  {
    match At(w, o, [], true)
    case Err(_) => None
    case Ok(d) => if w.parse(d.text).None? then None else w.parse(d.text).value.named
  }

  /** The names that readable files declare. */
  ghost function Declarable(w: World): set<Name>
    requires Fits(w)
  {
    set o | o in w.files && DeclaredAt(w, o).Some? :: DeclaredAt(w, o).value
  }

  lemma ModuleDeclarable(l: Library, n: Name)
    requires Fits(l.world) && ModuleNamed(l, n).Ok?
    ensures n in Declarable(l.world)
  {
    hide Splice, ByStart;
    var o := l.world.resolve(l.world.resolve(ResolveUse(l, n).value));
    assert DeclaredAt(l.world, o) == Some(n) && o in l.world.files;
  }

  ghost function Unloaded(w: World, g: Graph): nat
    requires Fits(w)
  {
    |Declarable(w) - g.byPath.Keys|
  }

  lemma UnloadedShrinks(l: Library, g: Graph, n: Name, m: Loaded)
    requires Fits(l.world) && ModuleNamed(l, n).Ok? && n !in g.byPath
    ensures Unloaded(l.world, Opened(g, n, m)) < Unloaded(l.world, g)
  {
    hide Declarable, ModuleNamed, Fits;
    ModuleDeclarable(l, n);
    assert Declarable(l.world) - Opened(g, n, m).byPath.Keys == Declarable(l.world) - g.byPath.Keys - {n};
  }

  lemma {:induction false} SmallerSet(a: set<Name>, b: set<Name>)
    requires a <= b
    ensures |a| <= |b|
  {
    if x :| x in a { SmallerSet(a - {x}, b - {x}); }
  }
}
