/** The textual manifest of the system library's link graph: rendering, parsing, and the round trip. */
module LinkManifest {
  import opened Wrappers
  import opened Linker
  import C = ConstExpr

  // ----- reasons and nodes as words -----

  function TokenOf(r: Reason): string {
    match r
    case DirectCall => "direct-call"
    case RoutineAddress => "routine-address"
    case StorageReference => "storage-reference"
    case AliasBacking => "alias-backing"
    case InitializerRelocation => "initializer-relocation"
    case MachineRelocation => "machine-relocation"
    case EntryAlias => "entry-alias"
    case MachineFallthrough => "machine-fallthrough"
    case RequiredPrefix => "required-prefix"
    case ConservativeLayout => "conservative-layout"
  }

  const REASONS: seq<Reason> := [DirectCall, RoutineAddress, StorageReference, AliasBacking, InitializerRelocation,
                                 MachineRelocation, EntryAlias, MachineFallthrough, RequiredPrefix, ConservativeLayout]

  function ReasonAmong(token: string, reasons: seq<Reason>): (r: Option<Reason>)
    ensures r.Some? ==> TokenOf(r.value) == token
    ensures r.None? ==> forall q :: q in reasons ==> TokenOf(q) != token
  {
    if reasons == [] then None
    else if TokenOf(reasons[0]) == token then Some(reasons[0])
    else ReasonAmong(token, reasons[1..])
  }

  function FromToken(token: string): Option<Reason> { ReasonAmong(token, REASONS) }

  datatype Node = Routine(name: string) | Global(name: string) | Static(name: string)

  function KindOf(n: Node): string {
    match n
    case Routine(_) => "routine"
    case Global(_) => "global"
    case Static(_) => "static"
  }

  function ParseNode(kind: string, name: string): Option<Node> {
    if name == "" || C.Normalize(name) != name then None
    else if kind == "routine" then Some(Routine(name))
    else if kind == "global" then Some(Global(name))
    else if kind == "static" then Some(Static(name))
    else None
  }

  // ----- lines and fields -----

  /** Every carriage return that stands before a line feed disappears. */
  function ReplaceCrLf(s: string): string {
    if |s| >= 2 && s[0] == '\r' && s[1] == '\n' then "\n" + ReplaceCrLf(s[2..])
    else if s == "" then ""
    else [s[0]] + ReplaceCrLf(s[1..])
  }

  function Chomp(line: string): string { if line != "" && line[|line| - 1] == '\r' then line[..|line| - 1] else line }

  function Upto(s: string, c: char): (n: nat)
    ensures n <= |s| && (forall i :: 0 <= i < n ==> s[i] != c) && (n < |s| ==> s[n] == c)
  {
    if s == "" || s[0] == c then 0 else 1 + Upto(s[1..], c)
  }

  /** The lines of a text; the end of the text ends the last line, and no empty line follows a final line feed. */
  function LinesOf(s: string): seq<string>
    decreases |s|
  {
    var n := Upto(s, '\n');
    if s == "" then []
    else if n == |s| then [s]
    else [Chomp(s[..n])] + LinesOf(s[n + 1..])
  }

  function Fields(s: string): (fs: seq<string>)
    ensures fs != []
    decreases |s|
  {
    var n := Upto(s, '\t');
    if n == |s| then [s] else [s[..n]] + Fields(s[n + 1..])
  }

  function Tabbed(fs: seq<string>): string
    requires fs != []
  {
    if |fs| == 1 then fs[0] else fs[0] + "\t" + Tabbed(fs[1..])
  }

  function Unlines(ls: seq<string>): string {
    if ls == [] then "" else ls[0] + "\n" + Unlines(ls[1..])
  }

  predicate Lacks(s: string, c: char) { forall i :: 0 <= i < |s| ==> s[i] != c }

  predicate Plain(s: string) { Lacks(s, '\t') && Lacks(s, '\n') }

  predicate EndsWell(s: string) { s != "" ==> s[|s| - 1] != '\r' }

  // ----- manifests -----

  datatype Manifest = Manifest(sources: map<string, string>, graph: Links<Node>)

  datatype Arrow = Arrow(source: Node, target: Node, reason: Reason)

  predicate IsDigest(s: string) { |s| == 64 && forall i :: 0 <= i < 64 ==> C.IsHex(s[i]) }

  datatype Entry = Skip | SourceEntry(key: string, digest: string) | NodeEntry(node: Node) | EdgeEntry(arrow: Arrow)

  function ParseLine(line: string): Option<Entry> {
    if line == "" || line[0] == '#' then Some(Skip)
    else
      var f := Fields(line);
      if |f| == 3 && f[0] == "source" then if IsDigest(f[2]) then Some(SourceEntry(f[1], f[2])) else None
      else if |f| == 3 && f[0] == "node" then
        var n := ParseNode(f[1], f[2]);
        if n.None? then None else Some(NodeEntry(n.value))
      else if |f| == 6 && f[0] == "edge" then
        var s, t, r := ParseNode(f[1], f[2]), ParseNode(f[3], f[4]), FromToken(f[5]);
        if s.None? || t.None? || r.None? then None else Some(EdgeEntry(Arrow(s.value, t.value, r.value)))
      else None
  }

  datatype Table = Table(sources: map<string, string>, nodes: set<Node>, arrows: seq<Arrow>)

  function AddEntry(t: Table, e: Entry): Option<Table> {
    match e
    case Skip => Some(t)
    case SourceEntry(key, digest) => if key in t.sources then None else Some(t.(sources := t.sources[key := digest]))
    case NodeEntry(n) => if n in t.nodes then None else Some(t.(nodes := t.nodes + {n}))
    case EdgeEntry(a) => Some(t.(arrows := t.arrows + [a]))
  }

  function ReadLines(t: Table, lines: seq<string>): Option<Table>
    decreases |lines|
  {
    if lines == [] then Some(t)
    else
      var e := ParseLine(lines[0]);
      if e.None? then None
      else
        var u := AddEntry(t, e.value);
        if u.None? then None else ReadLines(u.value, lines[1..])
  }

  function ParseSchema(s: string): Option<nat> {
    var digits := if s != "" && s[0] == '+' then s[1..] else s;
    if digits == "" || C.Span(digits, C.IsDigit) < |digits| || C.DigitsValue(digits, 10) >= 0x1_0000_0000 then None
    else Some(C.DigitsValue(digits, 10))
  }

  const MAGIC: string := "ACTIONC-SYS-LINK-MANIFEST"

  predicate GoodHeader(line: string) {
    var f := Fields(line); |f| == 2 && f[0] == MAGIC && ParseSchema(f[1]) == Some(1)
  }

  function AddArrows(g: Links<Node>, arrows: seq<Arrow>): Links<Node> {
    if arrows == [] then g
    else
      var last := arrows[|arrows| - 1];
      Joined(AddArrows(g, arrows[..|arrows| - 1]), last.source, last.target, last.reason)
  }

  predicate Declared(t: Table) { forall a :: a in t.arrows ==> a.source in t.nodes && a.target in t.nodes }

  function Built(t: Table): Manifest { Manifest(t.sources, AddArrows(Links(t.nodes, map[]), t.arrows)) }

  /** The manifest in a text, if it is well formed and its sources are exactly the current ones. */
  function Parse(text: string, current: map<string, string>): Option<Manifest> {
    var lines := LinesOf(ReplaceCrLf(text));
    if lines == [] || !GoodHeader(lines[0]) then None
    else
      var t := ReadLines(Table(map[], {}, []), lines[1..]);
      if t.None? || !Declared(t.value) || t.value.sources != current then None else Some(Built(t.value))
  }

  method ParseManifest(text: string, current: map<string, string>) returns (r: Option<Manifest>)
    ensures r == Parse(text, current)
  {
    hide ReplaceCrLf, LinesOf, ParseLine, ParseSchema, GoodHeader, Fields;
    var lines := LinesOf(ReplaceCrLf(text));
    if lines == [] || !GoodHeader(lines[0]) { return None; }
    var sources: map<string, string>, nodes: set<Node>, arrows: seq<Arrow> := map[], {}, [];
    ghost var start := Table(map[], {}, []);
    for k := 1 to |lines|
      invariant ReadLines(start, lines[1..]) == ReadLines(Table(sources, nodes, arrows), lines[k..])
    {
      assert lines[k..][0] == lines[k] && lines[k..][1..] == lines[k + 1..];
      var e := ParseLine(lines[k]);
      if e.None? { return None; }
      match e.value {
        case Skip =>
        case SourceEntry(key, digest) =>
          if key in sources { return None; }
          sources := sources[key := digest];
        case NodeEntry(n) =>
          if n in nodes { return None; }
          nodes := nodes + {n};
        case EdgeEntry(a) => arrows := arrows + [a];
      }
    }
    assert lines[|lines|..] == [];
    var graph := AddNodes(nodes);
    for k := 0 to |arrows|
      invariant graph.links.nodes == nodes && Tidy(graph.links)
      invariant forall s, t, r :: graph.links.Arrow(s, t, r) <==> Arrow(s, t, r) in arrows[..k]
      invariant forall a :: a in arrows[..k] ==> a.source in nodes && a.target in nodes
    {
      var a := arrows[k];
      if a.source !in nodes || a.target !in nodes { return None; }
      assert arrows[..k + 1] == arrows[..k] + [a];
      graph.AddEdge(a.source, a.target, a.reason);
      assert graph.links.nodes == nodes;
    }
    assert arrows[..|arrows|] == arrows;
    if sources != current { return None; }
    ArrowsAdded(nodes, arrows);
    SameLinks(graph.links, AddArrows(Links(nodes, map[]), arrows));
    r := Some(Manifest(sources, graph.links));
  }

  /** A graph with the given nodes and no edges. */
  method AddNodes(nodes: set<Node>) returns (graph: LinkGraph<Node>)
    ensures fresh(graph) && graph.links.nodes == nodes && Tidy(graph.links) && forall s, t, r :: !graph.links.Arrow(s, t, r)
  {
    graph := new LinkGraph<Node>();
    var left := nodes;
    while left != {}
      invariant left <= nodes && graph.links.nodes == nodes - left
      invariant Tidy(graph.links) && forall s, t, r :: !graph.links.Arrow(s, t, r)
      decreases left
    {
      var n :| n in left;
      graph.AddNode(n);
      left := left - {n};
    }
  }

  // ----- rendering -----

  /** An order in which to write down a manifest's sources, nodes and edges. */
  datatype Listing = Listing(keys: seq<string>, nodes: seq<Node>, arrows: seq<Arrow>)

  ghost predicate Distinct<T>(s: seq<T>) { forall i, j :: 0 <= i < j < |s| ==> s[i] != s[j] }

  ghost predicate Lists(m: Manifest, l: Listing) {
    && Distinct(l.keys) && (forall k :: k in l.keys <==> k in m.sources)
    && Distinct(l.nodes) && (forall n :: n in l.nodes <==> n in m.graph.nodes)
    && (forall a :: a in l.arrows <==> m.graph.Arrow(a.source, a.target, a.reason))
  }

  function SourceLine(key: string, digest: string): string { Tabbed(["source", key, digest]) }

  function NodeLine(n: Node): string { Tabbed(["node", KindOf(n), n.name]) }

  function ArrowLine(a: Arrow): string {
    Tabbed(["edge", KindOf(a.source), a.source.name, KindOf(a.target), a.target.name, TokenOf(a.reason)])
  }

  function SourceLines(sources: map<string, string>, keys: seq<string>): (ls: seq<string>)
    requires forall k :: k in keys ==> k in sources
    ensures |ls| == |keys|
  {
    seq(|keys|, i requires 0 <= i < |keys| => SourceLine(keys[i], sources[keys[i]]))
  }

  function NodeLines(nodes: seq<Node>): seq<string> { seq(|nodes|, i requires 0 <= i < |nodes| => NodeLine(nodes[i])) }

  function ArrowLines(arrows: seq<Arrow>): seq<string> {
    seq(|arrows|, i requires 0 <= i < |arrows| => ArrowLine(arrows[i]))
  }

  const HEADER: string := Tabbed([MAGIC, "1"])

  function Body(m: Manifest, l: Listing): seq<string>
    requires Lists(m, l)
  {
    SourceLines(m.sources, l.keys) + (NodeLines(l.nodes) + ArrowLines(l.arrows))
  }

  function Render(m: Manifest, l: Listing): string
    requires Lists(m, l)
  {
    Unlines([HEADER] + Body(m, l))
  }

  // ----- what can be written down and read back -----

  predicate CanonicalName(name: string) { name != "" && C.Normalize(name) == name && Plain(name) }

  /**
   * Names without tabs or line feeds, in upper case; whole digests; edges only where there are some, between declared
   * nodes.
   */
  ghost predicate Writable(m: Manifest) {
    && (forall k :: k in m.sources ==> Plain(k) && IsDigest(m.sources[k]))
    && (forall n :: n in m.graph.nodes ==> CanonicalName(n.name))
    && Sound(m.graph)
    && Tidy(m.graph)
  }

  ghost predicate NamesEndWell(nodes: set<Node>) { forall n :: n in nodes ==> EndsWell(n.name) }

  /** Besides, no node's name ends in a carriage return. */
  ghost predicate Canonical(m: Manifest) { Writable(m) && NamesEndWell(m.graph.nodes) }

  lemma {:induction false} FieldsOfTabbed(fs: seq<string>)
    requires fs != [] && forall f :: f in fs ==> Lacks(f, '\t')
    ensures Fields(Tabbed(fs)) == fs
    decreases |fs|
  {
    assert fs[0] in fs;
    if |fs| == 1 {
      UptoIs(fs[0], '\t', |fs[0]|);
    } else {
      var t := Tabbed(fs);
      FieldsOfTabbed(fs[1..]);
      UptoIs(t, '\t', |fs[0]|);
      assert t[..|fs[0]|] == fs[0] && t[|fs[0]| + 1..] == Tabbed(fs[1..]);
    }
  }

  lemma {:induction false} UptoIs(s: string, c: char, n: nat)
    requires n <= |s| && (forall i :: 0 <= i < n ==> s[i] != c) && (n < |s| ==> s[n] == c)
    ensures Upto(s, c) == n
  {
    if n > 0 { UptoIs(s[1..], c, n - 1); }
  }

  lemma {:induction false} TabbedPlain(fs: seq<string>)
    requires fs != [] && forall f :: f in fs ==> Plain(f)
    ensures OneLine(Tabbed(fs))
    decreases |fs|
  {
    assert fs[0] in fs;
    if |fs| > 1 { TabbedPlain(fs[1..]); }
  }

  lemma {:induction false} TabbedTail(fs: seq<string>, last: string, tail: string)
    ensures Tabbed(fs + [last + tail]) == Tabbed(fs + [last]) + tail
  {
    if fs != [] {
      assert (fs + [last + tail])[1..] == fs[1..] + [last + tail] && (fs + [last])[1..] == fs[1..] + [last];
      TabbedTail(fs[1..], last, tail);
    }
  }

  lemma {:induction false} TabbedEmpty(fs: seq<string>)
    requires fs != []
    ensures var t := Tabbed(fs + [""]); t != "" && t[|t| - 1] == '\t'
    decreases |fs|
  {
    assert (fs + [""])[1..] == fs[1..] + [""];
    if |fs| == 1 {
      assert Tabbed(fs + [""]) == fs[0] + "\t" + "";
    } else {
      TabbedEmpty(fs[1..]);
    }
  }

  /** Carriage returns at the end of a line are those at the end of its last field. */
  lemma TabbedEnd(fs: seq<string>, last: string)
    requires fs != []
    ensures Chomp(Tabbed(fs + [last])) == Tabbed(fs + [Chomp(last)])
    ensures EndsWell(last) <==> EndsWell(Tabbed(fs + [last]))
  {
    hide Tabbed;
    TabbedEmpty(fs);
    TabbedTail(fs, "", last);
    TabbedTail(fs, "", Chomp(last));
    assert "" + last == last && "" + Chomp(last) == Chomp(last);
  }

  predicate OneLine(s: string) { Lacks(s, '\n') }

  /** What becomes of a line on the way through the text: up to two carriage returns at its end are lost. */
  function AsRead(line: string): string { Chomp(Chomp(line)) }

  function AllRead(ls: seq<string>): (r: seq<string>)
    ensures |r| == |ls| && forall i :: 0 <= i < |r| ==> r[i] == AsRead(ls[i])
  {
    seq(|ls|, i requires 0 <= i < |ls| => AsRead(ls[i]))
  }

  lemma {:induction false} ReplaceStep(line: string, rest: string)
    requires OneLine(line)
    ensures ReplaceCrLf(line + "\n" + rest) == Chomp(line) + "\n" + ReplaceCrLf(rest)
  {
    var t := line + "\n" + rest;
    if line == "" {
      assert t[1..] == rest;
    } else if line == "\r" {
      assert t[2..] == rest;
    } else {
      assert t[1..] == line[1..] + "\n" + rest;
      ReplaceStep(line[1..], rest);
      ChompRest(line);
      hide Chomp;
    }
  }

  lemma ChompRest(line: string)
    requires line != "" && line != "\r"
    ensures Chomp(line) == [line[0]] + Chomp(line[1..])
  {
  }

  lemma LineStep(line: string, rest: string)
    requires OneLine(line)
    ensures LinesOf(line + "\n" + rest) == [Chomp(line)] + LinesOf(rest)
  {
    var t := line + "\n" + rest;
    UptoIs(t, '\n', |line|);
    assert t[..|line|] == line && t[|line| + 1..] == rest;
  }

  /** The lines of a text made of lines. */
  lemma {:induction false} LinesRead(ls: seq<string>)
    requires forall x :: x in ls ==> OneLine(x)
    ensures LinesOf(ReplaceCrLf(Unlines(ls))) == AllRead(ls)
  {
    hide OneLine, ReplaceCrLf, LinesOf, Chomp;
    if ls == [] {
      NoLines();
    } else {
      LinesRead(ls[1..]);
      assert ls[0] in ls;
      ChompOneLine(ls[0]);
      ReplaceStep(ls[0], Unlines(ls[1..]));
      LineStep(Chomp(ls[0]), ReplaceCrLf(Unlines(ls[1..])));
    }
  }

  lemma NoLines()
    ensures LinesOf(ReplaceCrLf("")) == []
  {
  }

  lemma ChompOneLine(line: string)
    requires OneLine(line)
    ensures OneLine(Chomp(line))
  {
  }

  /** Lines that do not end in a carriage return come back as they are. */
  lemma AllReadKeeps(ls: seq<string>)
    requires forall x :: x in ls ==> EndsWell(x)
    ensures AllRead(ls) == ls
  {
    forall i | 0 <= i < |ls| ensures AsRead(ls[i]) == ls[i] { assert ls[i] in ls; }
  }

  lemma WordsPlain(n: Node, r: Reason)
    ensures Plain(KindOf(n)) && Plain(TokenOf(r)) && Plain("source") && Plain("node") && Plain("edge")
  {
    hide Plain;
    TokenPlain(r);
    WordPlain("source");
    WordPlain("node");
    WordPlain("edge");
    match n
    case Routine(_) => WordPlain("routine");
    case Global(_) => WordPlain("global");
    case Static(_) => WordPlain("static");
  }

  lemma WordPlain(s: string)
    requires forall i :: 0 <= i < |s| ==> ' ' <= s[i]
    ensures Plain(s)
  {
  }

  lemma TokenPlain(r: Reason)
    ensures Plain(TokenOf(r))
  {
    hide Plain;
    match r
    case DirectCall => WordPlain("direct-call");
    case RoutineAddress => WordPlain("routine-address");
    case StorageReference => WordPlain("storage-reference");
    case AliasBacking => WordPlain("alias-backing");
    case InitializerRelocation => WordPlain("initializer-relocation");
    case MachineRelocation => WordPlain("machine-relocation");
    case EntryAlias => WordPlain("entry-alias");
    case MachineFallthrough => WordPlain("machine-fallthrough");
    case RequiredPrefix => WordPlain("required-prefix");
    case ConservativeLayout => WordPlain("conservative-layout");
  }

  lemma TokenEnds(r: Reason)
    ensures EndsWell(TokenOf(r))
  {
  }

  lemma TokenRoundTrip(r: Reason)
    ensures FromToken(TokenOf(r)) == Some(r)
  {
    var q := FromToken(TokenOf(r));
    assert r in REASONS by {
      match r
      case DirectCall => assert REASONS[0] == r;
      case RoutineAddress => assert REASONS[1] == r;
      case StorageReference => assert REASONS[2] == r;
      case AliasBacking => assert REASONS[3] == r;
      case InitializerRelocation => assert REASONS[4] == r;
      case MachineRelocation => assert REASONS[5] == r;
      case EntryAlias => assert REASONS[6] == r;
      case MachineFallthrough => assert REASONS[7] == r;
      case RequiredPrefix => assert REASONS[8] == r;
      case ConservativeLayout => assert REASONS[9] == r;
    }
    if q.Some? { TokensDiffer(q.value, r); }
  }

  lemma TokensDiffer(a: Reason, b: Reason)
    ensures TokenOf(a) == TokenOf(b) ==> a == b
  {
  }

  lemma NodeRoundTrip(n: Node)
    requires CanonicalName(n.name)
    ensures ParseNode(KindOf(n), n.name) == Some(n)
  {
  }

  lemma HexPlain(s: string)
    requires IsDigest(s)
    ensures Plain(s) && EndsWell(s) && s != ""
  {
    forall i | 0 <= i < |s|
      ensures s[i] != '\t' && s[i] != '\n' && s[i] != '\r'
    {
      assert C.IsHex(s[i]);
    }
  }

  lemma SourceLineReads(key: string, digest: string)
    requires Plain(key) && IsDigest(digest)
    ensures ParseLine(SourceLine(key, digest)) == Some(SourceEntry(key, digest))
    ensures OneLine(SourceLine(key, digest)) && EndsWell(SourceLine(key, digest))
  {
    HexPlain(digest);
    WordsPlain(Routine(""), DirectCall);
    var fs := ["source", key, digest];
    TabbedPlain(fs);
    FieldsOfTabbed(fs);
    assert Tabbed(fs)[0] == 's';
    TabbedEnd(["source", key], digest);
    assert ["source", key] + [digest] == fs;
  }

  lemma NodeLineReads(n: Node)
    requires CanonicalName(n.name)
    ensures ParseLine(NodeLine(n)) == Some(NodeEntry(n)) && OneLine(NodeLine(n))
    ensures EndsWell(n.name) ==> EndsWell(NodeLine(n))
  {
    hide ParseNode, KindOf, CanonicalName, EndsWell, AsRead;
    NodeLineEnd(n);
    NodeRoundTrip(n);
    NamePlain(n.name);
    WordsPlain(n, DirectCall);
    var fs := ["node", KindOf(n), n.name];
    TabbedPlain(fs);
    FieldsOfTabbed(fs);
    assert Tabbed(fs)[0] == 'n';
  }

  lemma NodeLineEnd(n: Node)
    ensures EndsWell(n.name) <==> EndsWell(NodeLine(n))
    ensures AsRead(NodeLine(n)) == Tabbed(["node", KindOf(n), AsRead(n.name)])
  {
    hide KindOf, Tabbed, Chomp, EndsWell;
    var fs := ["node", KindOf(n)];
    TabbedEnd(fs, n.name);
    TabbedEnd(fs, Chomp(n.name));
    assert fs + [n.name] == ["node", KindOf(n), n.name] && fs + [AsRead(n.name)] == ["node", KindOf(n), AsRead(n.name)];
  }

  lemma ArrowLineEnds(a: Arrow)
    ensures EndsWell(ArrowLine(a))
  {
    hide EndsWell, Tabbed, KindOf, TokenOf;
    TokenEnds(a.reason);
    var fs := ["edge", KindOf(a.source), a.source.name, KindOf(a.target), a.target.name];
    TabbedEnd(fs, TokenOf(a.reason));
    assert fs + [TokenOf(a.reason)]
      == ["edge", KindOf(a.source), a.source.name, KindOf(a.target), a.target.name, TokenOf(a.reason)];
  }

  lemma ArrowLineReads(a: Arrow)
    requires CanonicalName(a.source.name) && CanonicalName(a.target.name)
    ensures ParseLine(ArrowLine(a)) == Some(EdgeEntry(a)) && OneLine(ArrowLine(a)) && EndsWell(ArrowLine(a))
  {
    hide ParseNode, KindOf, TokenOf, FromToken, CanonicalName;
    WordsPlain(a.source, a.reason);
    WordsPlain(a.target, a.reason);
    NamePlain(a.source.name);
    NamePlain(a.target.name);
    var fs := ["edge", KindOf(a.source), a.source.name, KindOf(a.target), a.target.name, TokenOf(a.reason)];
    TabbedPlain(fs);
    FieldsOfTabbed(fs);
    NodeRoundTrip(a.source);
    NodeRoundTrip(a.target);
    TokenRoundTrip(a.reason);
    assert Tabbed(fs)[0] == 'e';
    ArrowLineEnds(a);
    hide EndsWell;
  }

  lemma NamePlain(name: string)
    requires CanonicalName(name)
    ensures Plain(name)
  {
  }

  lemma SchemaOne()
    ensures ParseSchema("1") == Some(1) && Plain(MAGIC) && Plain("1")
  {
    assert "1"[..0] == "";
    assert C.DigitsValue("1", 10) == 1;
    C.SpanIs("1", C.IsDigit, 1);
  }

  lemma HeaderGood()
    ensures GoodHeader(HEADER) && OneLine(HEADER) && EndsWell(HEADER)
  {
    hide ParseSchema, Fields, Plain;
    var fs := [MAGIC, "1"];
    SchemaOne();
    FieldsOfTabbed(fs);
    TabbedPlain(fs);
    TabbedEnd([MAGIC], "1");
    assert [MAGIC] + ["1"] == fs;
  }

  // ----- reading the body -----

  lemma {:induction false} ReadAppend(t: Table, a: seq<string>, b: seq<string>)
    ensures ReadLines(t, a + b) == (var u := ReadLines(t, a); if u.None? then None else ReadLines(u.value, b))
    decreases |a|
  {
    hide ParseLine;
    if a == [] {
      assert a + b == b;
    } else {
      assert (a + b)[1..] == a[1..] + b;
      var e := ParseLine(a[0]);
      if e.Some? && AddEntry(t, e.value).Some? { ReadAppend(AddEntry(t, e.value).value, a[1..], b); }
    }
  }

  lemma ReadOne(t: Table, line: string, e: Entry)
    requires ParseLine(line) == Some(e)
    ensures ReadLines(t, [line]) == AddEntry(t, e)
  {
    hide ParseLine;
    assert [line][1..] == [];
  }

  lemma {:induction false} ReadSources(sources: map<string, string>, keys: seq<string>) returns (t: Table)
    requires Distinct(keys) && forall k :: k in keys ==> k in sources && Plain(k) && IsDigest(sources[k])
    ensures ReadLines(Table(map[], {}, []), SourceLines(sources, keys)) == Some(t) && t.nodes == {} && t.arrows == []
    ensures (forall k :: k in t.sources <==> k in keys) && forall k :: k in keys ==> t.sources[k] == sources[k]
    decreases |keys|
  {
    hide ParseLine, Plain, IsDigest, SourceLine;
    if keys == [] {
      t := Table(map[], {}, []);
    } else {
      var init, last := keys[..|keys| - 1], keys[|keys| - 1];
      var before := ReadSources(sources, init);
      SourceLineReads(last, sources[last]);
      var line := SourceLine(last, sources[last]);
      assert SourceLines(sources, keys) == SourceLines(sources, init) + [line];
      ReadAppend(Table(map[], {}, []), SourceLines(sources, init), [line]);
      ReadOne(before, line, SourceEntry(last, sources[last]));
      assert last !in init;
      t := before.(sources := before.sources[last := sources[last]]);
      assert keys == init + [last];
    }
  }

  lemma {:induction false} ReadNodes(start: Table, nodes: seq<Node>) returns (t: Table)
    requires Distinct(nodes) && start.nodes == {} && forall n :: n in nodes ==> CanonicalName(n.name)
    ensures ReadLines(start, NodeLines(nodes)) == Some(t) && t.sources == start.sources && t.arrows == start.arrows
    ensures forall n :: n in t.nodes <==> n in nodes
    decreases |nodes|
  {
    hide ParseLine, CanonicalName, NodeLine;
    if nodes == [] {
      t := start;
    } else {
      var init, last := nodes[..|nodes| - 1], nodes[|nodes| - 1];
      var before := ReadNodes(start, init);
      NodeLineReads(last);
      assert NodeLines(nodes) == NodeLines(init) + [NodeLine(last)];
      ReadAppend(start, NodeLines(init), [NodeLine(last)]);
      ReadOne(before, NodeLine(last), NodeEntry(last));
      assert last !in init;
      t := before.(nodes := before.nodes + {last});
      assert nodes == init + [last];
    }
  }

  lemma {:induction false} ReadArrows(start: Table, arrows: seq<Arrow>)
    requires start.arrows == [] && forall a :: a in arrows ==>
      CanonicalName(a.source.name) && CanonicalName(a.target.name)
    ensures ReadLines(start, ArrowLines(arrows)) == Some(start.(arrows := arrows))
    decreases |arrows|
  {
    hide ParseLine, CanonicalName, ArrowLine;
    if arrows != [] {
      var init, last := arrows[..|arrows| - 1], arrows[|arrows| - 1];
      ReadArrows(start, init);
      ArrowLineReads(last);
      assert ArrowLines(arrows) == ArrowLines(init) + [ArrowLine(last)];
      ReadAppend(start, ArrowLines(init), [ArrowLine(last)]);
      ReadOne(start.(arrows := init), ArrowLine(last), EdgeEntry(last));
      assert arrows == init + [last];
    }
  }

  // ----- the graph comes back -----

  lemma {:induction false} ArrowsAdded(nodes: set<Node>, arrows: seq<Arrow>)
    requires forall a :: a in arrows ==> a.source in nodes && a.target in nodes
    ensures var g := AddArrows(Links(nodes, map[]), arrows);
      && g.nodes == nodes
      && (forall s, t, r :: g.Arrow(s, t, r) <==> Arrow(s, t, r) in arrows)
      && Tidy(g)
  {
    if arrows != [] {
      var init, last := arrows[..|arrows| - 1], arrows[|arrows| - 1];
      assert arrows == init + [last];
      ArrowsAdded(nodes, init);
      var g := AddArrows(Links(nodes, map[]), init);
      JoinedArrows(g, last.source, last.target, last.reason);
      assert g.nodes + {last.source, last.target} == nodes;
      var h := Joined(g, last.source, last.target, last.reason);
      assert Edge(last.target, last.reason) in h.edges[last.source];
    }
  }

  lemma BodyReads(m: Manifest, l: Listing) returns (t: Table)
    requires Lists(m, l) && Writable(m)
    ensures ReadLines(Table(map[], {}, []), Body(m, l)) == Some(t)
    ensures t.sources == m.sources && t.nodes == m.graph.nodes && t.arrows == l.arrows
  {
    hide ParseLine, ReadLines, SourceLines, NodeLines, ArrowLines, CanonicalName, IsDigest, Plain, OneLine;
    ArrowEnds(m, l);
    var a := ReadSources(m.sources, l.keys);
    assert a.sources == m.sources;
    var b := ReadNodes(a, l.nodes);
    assert b.nodes == m.graph.nodes;
    ReadArrows(b, l.arrows);
    var start := Table(map[], {}, []);
    ReadAppend(start, SourceLines(m.sources, l.keys), NodeLines(l.nodes) + ArrowLines(l.arrows));
    ReadAppend(a, NodeLines(l.nodes), ArrowLines(l.arrows));
    t := b.(arrows := l.arrows);
  }

  lemma ArrowEnds(m: Manifest, l: Listing)
    requires Lists(m, l) && Writable(m)
    ensures forall a :: a in l.arrows ==> a.source in m.graph.nodes && a.target in m.graph.nodes
    ensures forall a :: a in l.arrows ==> CanonicalName(a.source.name) && CanonicalName(a.target.name)
  {
    hide CanonicalName;
    forall a | a in l.arrows
      ensures a.source in m.graph.nodes && a.target in m.graph.nodes
    {
      assert m.graph.Arrow(a.source, a.target, a.reason);
    }
  }

  lemma BodyOneLine(m: Manifest, l: Listing)
    requires Lists(m, l) && Writable(m)
    ensures forall x :: x in Body(m, l) ==> OneLine(x)
    ensures NamesEndWell(m.graph.nodes) ==> forall x :: x in Body(m, l) ==> EndsWell(x)
  {
    hide ParseLine, CanonicalName, IsDigest, Plain, OneLine, EndsWell, SourceLine, NodeLine, ArrowLine;
    ArrowEnds(m, l);
    var a, b, c := SourceLines(m.sources, l.keys), NodeLines(l.nodes), ArrowLines(l.arrows);
    forall x | x in a ensures OneLine(x) && EndsWell(x) {
      var i :| 0 <= i < |a| && a[i] == x;
      assert l.keys[i] in l.keys;
      SourceLineReads(l.keys[i], m.sources[l.keys[i]]);
    }
    forall x | x in b ensures OneLine(x) && (NamesEndWell(m.graph.nodes) ==> EndsWell(x)) {
      var i :| 0 <= i < |b| && b[i] == x;
      assert l.nodes[i] in l.nodes;
      NodeLineReads(l.nodes[i]);
    }
    forall x | x in c ensures OneLine(x) && EndsWell(x) {
      var i :| 0 <= i < |c| && c[i] == x;
      assert l.arrows[i] in l.arrows;
      ArrowLineReads(l.arrows[i]);
    }
  }

  /**
   * Rendering a canonical manifest, in any order, and parsing the text gives the manifest back if its sources are
   * current.
   */
  lemma RoundTrip(m: Manifest, l: Listing, current: map<string, string>)
    requires Lists(m, l) && Canonical(m)
    ensures Parse(Render(m, l), current) == if m.sources == current then Some(m) else None
  {
    hide ReadLines, Body, ReplaceCrLf, LinesOf, Unlines, GoodHeader, OneLine, EndsWell, Fields;
    var t := BodyReads(m, l);
    HeaderGood();
    BodyOneLine(m, l);
    var lines := [HEADER] + Body(m, l);
    LinesRead(lines);
    AllReadKeeps(lines);
    assert lines[1..] == Body(m, l) && lines[0] == HEADER;
    GraphBack(m, l);
    ArrowEnds(m, l);
    hide Canonical, CanonicalName;
  }

  lemma GraphBack(m: Manifest, l: Listing)
    requires Lists(m, l) && Writable(m)
    ensures AddArrows(Links(m.graph.nodes, map[]), l.arrows) == m.graph
  {
    ArrowEnds(m, l);
    ArrowsAdded(m.graph.nodes, l.arrows);
    var g := AddArrows(Links(m.graph.nodes, map[]), l.arrows);
    forall s, t, r
      ensures g.Arrow(s, t, r) <==> m.graph.Arrow(s, t, r)
    {
      assert Arrow(s, t, r) in l.arrows <==> m.graph.Arrow(s, t, r);
    }
    hide AddArrows, CanonicalName, IsDigest;
    SameLinks(g, m.graph);
  }

  // ----- what was read, and what comes back exactly -----

  lemma {:induction false} LinesOneLine(s: string)
    ensures forall x :: x in LinesOf(s) ==> OneLine(x)
    decreases |s|
  {
    var n := Upto(s, '\n');
    if n < |s| { LinesOneLine(s[n + 1..]); }
  }

  lemma {:induction false} FieldsPlain(line: string)
    requires OneLine(line)
    ensures forall f :: f in Fields(line) ==> Plain(f)
    decreases |line|
  {
    var n := Upto(line, '\t');
    if n < |line| { FieldsPlain(line[n + 1..]); }
  }

  ghost predicate GoodEntry(e: Entry) {
    match e
    case Skip => true
    case SourceEntry(key, digest) => Plain(key) && IsDigest(digest)
    case NodeEntry(n) => CanonicalName(n.name)
    case EdgeEntry(_) => true
  }

  ghost predicate GoodTable(t: Table) {
    && (forall k :: k in t.sources ==> Plain(k) && IsDigest(t.sources[k]))
    && forall n :: n in t.nodes ==> CanonicalName(n.name)
  }

  lemma LineGood(line: string)
    requires OneLine(line)
    ensures var e := ParseLine(line); e.Some? ==> GoodEntry(e.value)
  {
    hide Plain, IsDigest, Fields, FromToken;
    FieldsPlain(line);
    var f := Fields(line);
    assert |f| == 3 ==> f[1] in f && f[2] in f;
  }

  lemma {:induction false} ReadGood(t: Table, lines: seq<string>)
    requires GoodTable(t) && forall x :: x in lines ==> OneLine(x)
    ensures var u := ReadLines(t, lines); u.Some? ==> GoodTable(u.value)
    decreases |lines|
  {
    hide ParseLine, OneLine, CanonicalName, Plain, IsDigest;
    if lines != [] {
      assert lines[0] in lines;
      LineGood(lines[0]);
      var e := ParseLine(lines[0]);
      if e.Some? && AddEntry(t, e.value).Some? { ReadGood(AddEntry(t, e.value).value, lines[1..]); }
    }
  }

  lemma BuiltSound(t: Table)
    requires Declared(t)
    ensures Sound(Built(t).graph) && Built(t).graph.nodes == t.nodes && Tidy(Built(t).graph)
  {
    ArrowsAdded(t.nodes, t.arrows);
    hide AddArrows;
  }

  /** Whatever text was read, the manifest is writable. */
  lemma ReadIsWritable(text: string, current: map<string, string>)
    requires Parse(text, current).Some?
    ensures Writable(Parse(text, current).value) && Parse(text, current).value.sources == current
  {
    hide ReplaceCrLf, LinesOf, GoodHeader, ReadLines, CanonicalName, IsDigest, Plain, OneLine;
    var lines := LinesOf(ReplaceCrLf(text));
    LinesOneLine(ReplaceCrLf(text));
    ReadGood(Table(map[], {}, []), lines[1..]);
    BuiltSound(ReadLines(Table(map[], {}, []), lines[1..]).value);
  }

  /** A node that was read comes from a line that declares it. */
  lemma {:induction false} NodeFrom(start: Table, lines: seq<string>, t: Table, n: Node) returns (i: nat)
    requires ReadLines(start, lines) == Some(t) && n in t.nodes && n !in start.nodes
    ensures i < |lines| && ParseLine(lines[i]) == Some(NodeEntry(n))
    decreases |lines|
  {
    hide ParseLine;
    var u := AddEntry(start, ParseLine(lines[0]).value).value;
    if n in u.nodes {
      i := 0;
    } else {
      var j := NodeFrom(u, lines[1..], t, n);
      i := j + 1;
    }
  }

  /** The line of a node, as it is read, can only declare what is left of its name. */
  lemma NodeLineDeclares(n: Node, x: Node)
    requires CanonicalName(n.name) && ParseLine(AsRead(NodeLine(n))) == Some(NodeEntry(x))
    ensures x.name == AsRead(n.name)
  {
    hide KindOf, CanonicalName, Tabbed, Fields, EndsWell, IsDigest, FromToken;
    NodeLineEnd(n);
    WordsPlain(n, DirectCall);
    NamePlain(n.name);
    ReadPlain(n.name);
    var fs := ["node", KindOf(n), AsRead(n.name)];
    hide AsRead, Plain;
    FieldsOfPlain(fs);
  }

  lemma ReadPlain(s: string)
    requires Plain(s)
    ensures Plain(AsRead(s))
  {
  }

  lemma FieldsOfPlain(fs: seq<string>)
    requires fs != [] && forall f :: f in fs ==> Plain(f)
    ensures Fields(Tabbed(fs)) == fs
  {
    FieldsOfTabbed(fs);
  }

  /** A line of the body declares a node only if it is the line of a node. */
  lemma BodyDeclares(m: Manifest, l: Listing, i: nat, x: Node)
    requires Lists(m, l) && Writable(m) && i < |Body(m, l)| && ParseLine(AsRead(Body(m, l)[i])) == Some(NodeEntry(x))
    ensures exists n :: n in m.graph.nodes && x.name == AsRead(n.name)
  {
    hide ParseLine, SourceLine, NodeLine, ArrowLine, IsDigest, Plain, OneLine, EndsWell, CanonicalName, AsRead;
    ArrowEnds(m, l);
    var a, b := |l.keys|, |l.nodes|;
    if i < a {
      assert l.keys[i] in l.keys;
      SourceLineReads(l.keys[i], m.sources[l.keys[i]]);
      ReadKeeps(SourceLine(l.keys[i], m.sources[l.keys[i]]));
    } else if i < a + b {
      var n := l.nodes[i - a];
      assert n in l.nodes && Body(m, l)[i] == NodeLine(n);
      NodeLineDeclares(n, x);
    } else {
      var w := l.arrows[i - a - b];
      assert w in l.arrows && Body(m, l)[i] == ArrowLine(w);
      ArrowLineReads(w);
      ReadKeeps(ArrowLine(w));
    }
  }

  lemma ReadKeeps(line: string)
    requires EndsWell(line)
    ensures AsRead(line) == line
  {
  }

  /** The longest of the names that end in a carriage return. */
  lemma {:induction false} LongestStray(nodes: seq<Node>) returns (n: Node)
    requires exists x :: x in nodes && !EndsWell(x.name)
    ensures n in nodes && !EndsWell(n.name) && forall x :: x in nodes && !EndsWell(x.name) ==> |x.name| <= |n.name|
  {
    hide EndsWell;
    var init, last := nodes[..|nodes| - 1], nodes[|nodes| - 1];
    assert nodes == init + [last];
    if exists x :: x in init && !EndsWell(x.name) {
      n := LongestStray(init);
      if !EndsWell(last.name) && |last.name| > |n.name| { n := last; }
    } else {
      n := last;
    }
  }

  /** What is left of a name is shorter if it ended in a carriage return, and the same if it did not. */
  lemma ReadShorter(name: string)
    ensures if EndsWell(name) then AsRead(name) == name else |AsRead(name)| < |name|
  {
  }

  /** The longest name that ends in a carriage return has no line that declares it. */
  lemma StrayIsLost(m: Manifest, l: Listing)
    requires Lists(m, l) && Writable(m) && Parse(Render(m, l), m.sources) == Some(m)
    ensures NamesEndWell(m.graph.nodes)
  {
    hide ReadLines, Body, ReplaceCrLf, LinesOf, Unlines, GoodHeader, OneLine, EndsWell, ParseLine, AsRead, Writable,
         CanonicalName;
    if !NamesEndWell(m.graph.nodes) {
      var n := LongestStray(l.nodes);
      HeaderGood();
      BodyOneLine(m, l);
      var lines := [HEADER] + Body(m, l);
      LinesRead(lines);
      var read := AllRead(lines)[1..];
      var t := ReadLines(Table(map[], {}, []), read).value;
      BuiltSound(t);
      var i := NodeFrom(Table(map[], {}, []), read, t, n);
      assert read[i] == AsRead(Body(m, l)[i]);
      BodyDeclares(m, l, i, n);
      var x :| x in m.graph.nodes && n.name == AsRead(x.name);
      ReadShorter(x.name);
    }
  }

  /** Rendering and parsing gives a manifest back if and only if it is canonical. */
  lemma RoundTripExactly(m: Manifest, l: Listing)
    requires Lists(m, l)
    ensures Parse(Render(m, l), m.sources) == Some(m) <==> Canonical(m)
  {
    hide Parse, Render, Lists, Writable, NamesEndWell;
    if Canonical(m) { RoundTrip(m, l, m.sources); }
    if Parse(Render(m, l), m.sources) == Some(m) {
      ReadIsWritable(Render(m, l), m.sources);
      StrayIsLost(m, l);
    }
  }

  /** Whatever was read survives writing and reading again if and only if no name in it ends in a carriage return. */
  lemma ReadAgain(text: string, current: map<string, string>, l: Listing)
    requires Parse(text, current).Some? && Lists(Parse(text, current).value, l)
    ensures var m := Parse(text, current).value;
      Parse(Render(m, l), current) == Some(m) <==> NamesEndWell(m.graph.nodes)
  {
    hide Parse, Render, Lists, Writable, NamesEndWell;
    ReadIsWritable(text, current);
    RoundTripExactly(Parse(text, current).value, l);
  }

  const STRAY: Manifest := Manifest(map[], Links({Routine("A\r")}, map[]))

  lemma StrayNames()
    ensures CanonicalName("A\r") && !EndsWell("A\r") && AsRead("A\r\r\r") == "A\r" && Plain("A\r\r\r")
  {
  }

  lemma StrayIsRead()
    ensures Parse(Unlines([HEADER, NodeLine(Routine("A\r\r\r"))]), map[]) == Some(STRAY)
  {
    hide ReplaceCrLf, LinesOf, Unlines, GoodHeader, Fields, ParseLine, AsRead, CanonicalName, OneLine, EndsWell,
         Plain, NodeLine;
    var n, long := Routine("A\r"), Routine("A\r\r\r");
    StrayNames();
    HeaderGood();
    StrayLine(n, long);
    var lines := [HEADER, NodeLine(long)];
    LinesRead(lines);
    ReadKeeps(HEADER);
    assert AllRead(lines) == [HEADER, NodeLine(n)];
    NodeLineReads(n);
    var start := Table(map[], {}, []);
    ReadOne(start, NodeLine(n), NodeEntry(n));
    assert [HEADER, NodeLine(n)][1..] == [NodeLine(n)];
    assert start.nodes + {n} == {n};
  }

  lemma StrayLine(n: Node, long: Node)
    requires n.Routine? && long.Routine? && AsRead(long.name) == n.name && Plain(long.name)
    ensures AsRead(NodeLine(long)) == NodeLine(n) && OneLine(NodeLine(long))
  {
    hide AsRead, Plain, OneLine, EndsWell;
    NodeLineEnd(long);
    WordsPlain(long, DirectCall);
    TabbedPlain(["node", KindOf(long), long.name]);
  }

  /**
   * A text is read as a manifest that is not given back: three carriage returns leave one in the name, one leaves
   * none.
   */
  lemma StrayReturn(l: Listing)
    requires Lists(STRAY, l)
    ensures Parse(Unlines([HEADER, NodeLine(Routine("A\r\r\r"))]), map[]) == Some(STRAY)
    ensures Parse(Render(STRAY, l), map[]) != Some(STRAY)
  {
    StrayIsRead();
    hide Parse, Render, Lists, Writable, EndsWell;
    RoundTripExactly(STRAY, l);
    StrayNames();
    assert Routine("A\r") in STRAY.graph.nodes;
  }

  /** Writing a manifest out, taking sources, nodes and edges in any order. */
  method RenderManifest(m: Manifest) returns (text: string, ghost l: Listing)
    ensures Lists(m, l) && text == Render(m, l)
  {
    var lines: seq<string> := [HEADER];
    var keys: seq<string>, left := [], m.sources.Keys;
    while left != {}
      invariant left <= m.sources.Keys && Distinct(keys) && (forall k :: k in keys <==> k in m.sources && k !in left)
      invariant lines == [HEADER] + SourceLines(m.sources, keys)
      decreases left
    {
      var k :| k in left;
      left := left - {k};
      keys := keys + [k];
      lines := lines + [SourceLine(k, m.sources[k])];
    }
    var nodes: seq<Node>, nodesLeft := [], m.graph.nodes;
    while nodesLeft != {}
      invariant nodesLeft <= m.graph.nodes && Distinct(nodes) && (forall n :: n in nodes <==> n in m.graph.nodes && n !in nodesLeft)
      invariant lines == [HEADER] + (SourceLines(m.sources, keys) + NodeLines(nodes))
      decreases nodesLeft
    {
      var n :| n in nodesLeft;
      nodesLeft := nodesLeft - {n};
      nodes := nodes + [n];
      lines := lines + [NodeLine(n)];
    }
    var arrows: seq<Arrow>, arrowsLeft := [], set s, e | s in m.graph.edges && e in m.graph.edges[s] :: Arrow(s,
        e.target, e.reason);
    ghost var all := arrowsLeft;
    while arrowsLeft != {}
      invariant arrowsLeft <= all && (forall a :: a in arrows <==> a in all && a !in arrowsLeft)
      invariant lines == [HEADER] + (SourceLines(m.sources, keys) + (NodeLines(nodes) + ArrowLines(arrows)))
      decreases arrowsLeft
    {
      var a :| a in arrowsLeft;
      arrowsLeft := arrowsLeft - {a};
      arrows := arrows + [a];
      lines := lines + [ArrowLine(a)];
    }
    l := Listing(keys, nodes, arrows);
    AllArrows(m.graph, all);
    text := Unlines(lines);
  }

  lemma AllArrows(g: Links<Node>, all: set<Arrow>)
    requires all == set s, e | s in g.edges && e in g.edges[s] :: Arrow(s, e.target, e.reason)
    ensures forall a :: a in all <==> g.Arrow(a.source, a.target, a.reason)
  {
    forall a: Arrow
      ensures a in all <==> g.Arrow(a.source, a.target, a.reason)
    {
      if g.Arrow(a.source, a.target, a.reason) { assert Edge(a.target, a.reason) in g.edges[a.source]; }
    }
  }

  // ----- the words of the format -----

  /** The words an edge may give as its reason, and what each means. */
  const WORDS: seq<(string, Reason)> :=
    [("direct-call", DirectCall), ("routine-address", RoutineAddress), ("storage-reference", StorageReference),
     ("alias-backing", AliasBacking), ("initializer-relocation", InitializerRelocation),
     ("machine-relocation", MachineRelocation), ("entry-alias", EntryAlias), ("machine-fallthrough", MachineFallthrough),
     ("required-prefix", RequiredPrefix), ("conservative-layout", ConservativeLayout)]

  /** Each word is read as its reason, and nothing else is read as one. */
  lemma WordsRead(word: string, r: Reason)
    ensures FromToken(word) == Some(r) <==> (word, r) in WORDS
  {
    hide ReasonAmong;
    InWords(r);
    assert r in REASONS;
    if FromToken(word) == Some(r) { assert TokenOf(r) == word; }
    if (word, r) in WORDS {
      OneWord(word, r);
      assert FromToken(word).Some?;
      TokensDiffer(FromToken(word).value, r);
    }
  }

  lemma InWords(r: Reason)
    ensures (TokenOf(r), r) in WORDS
  {
    match r
    case DirectCall => assert WORDS[0] == (TokenOf(r), r);
    case RoutineAddress => assert WORDS[1] == (TokenOf(r), r);
    case StorageReference => assert WORDS[2] == (TokenOf(r), r);
    case AliasBacking => assert WORDS[3] == (TokenOf(r), r);
    case InitializerRelocation => assert WORDS[4] == (TokenOf(r), r);
    case MachineRelocation => assert WORDS[5] == (TokenOf(r), r);
    case EntryAlias => assert WORDS[6] == (TokenOf(r), r);
    case MachineFallthrough => assert WORDS[7] == (TokenOf(r), r);
    case RequiredPrefix => assert WORDS[8] == (TokenOf(r), r);
    case ConservativeLayout => assert WORDS[9] == (TokenOf(r), r);
  }

  lemma OneWord(word: string, r: Reason)
    requires (word, r) in WORDS
    ensures TokenOf(r) == word
  {
  }

  /** Zeros and a one, perhaps behind a plus sign. */
  predicate SaysOne(s: string) { IsOne(s) || (s != "" && s[0] == '+' && IsOne(s[1..])) }

  predicate IsOne(s: string) { s != "" && s[|s| - 1] == '1' && forall i :: 0 <= i < |s| - 1 ==> s[i] == '0' }

  lemma {:induction false} ZeroDigits(s: string)
    requires forall i :: 0 <= i < |s| ==> C.IsDigit(s[i])
    ensures C.DigitsValue(s, 10) == 0 <==> forall i :: 0 <= i < |s| ==> s[i] == '0'
  {
    if s != "" { ZeroDigits(s[..|s| - 1]); }
  }

  lemma OneDigits(s: string)
    requires s != "" && forall i :: 0 <= i < |s| ==> C.IsDigit(s[i])
    ensures C.DigitsValue(s, 10) == 1 <==> IsOne(s)
  {
    ZeroDigits(s[..|s| - 1]);
  }

  lemma AllDigits(s: string)
    ensures C.Span(s, C.IsDigit) == |s| <==> forall i :: 0 <= i < |s| ==> C.IsDigit(s[i])
  {
    if forall i :: 0 <= i < |s| ==> C.IsDigit(s[i]) { C.SpanIs(s, C.IsDigit, |s|); }
  }

  lemma SchemaIsOne(s: string)
    ensures ParseSchema(s) == Some(1) <==> SaysOne(s)
  {
    hide C.DigitsValue, C.Span;
    var digits := if s != "" && s[0] == '+' then s[1..] else s;
    AllDigits(digits);
    if digits != "" && C.Span(digits, C.IsDigit) == |digits| { OneDigits(digits); }
    assert IsOne(s) ==> s[0] == '0' || s[0] == '1';
  }

  lemma TwoFields(line: string)
    requires |Fields(line)| == 2
    ensures line == Fields(line)[0] + "\t" + Fields(line)[1]
  {
    var n := Upto(line, '\t');
    var rest := line[n + 1..];
    assert Fields(line) == [line[..n]] + Fields(rest);
    OneField(rest);
  }

  lemma OneField(s: string)
    ensures |Fields(s)| == 1 ==> Fields(s) == [s]
  {
    var n := Upto(s, '\t');
    if n < |s| { assert Fields(s) == [s[..n]] + Fields(s[n + 1..]); }
  }

  /** The first line is the magic word, a tab and the number one. */
  lemma HeaderExactly(line: string)
    ensures GoodHeader(line) <==> exists s :: line == "ACTIONC-SYS-LINK-MANIFEST" + "\t" + s && SaysOne(s)
  {
    hide Fields, ParseSchema;
    if GoodHeader(line) {
      TwoFields(line);
      SchemaIsOne(Fields(line)[1]);
    }
    if s :| line == MAGIC + "\t" + s && SaysOne(s) {
      SchemaIsOne(s);
      HeaderFields(s);
    }
  }

  lemma HeaderFields(s: string)
    requires SaysOne(s)
    ensures Fields(MAGIC + "\t" + s) == [MAGIC, s]
  {
    hide Fields;
    FieldsOfTabbed([MAGIC, s]);
  }
}
