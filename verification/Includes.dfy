/** Textual inclusion: every included file is expanded in place, and a map remembers where each character came from. */
module Includes {
  import opened Wrappers
  import C = ConstExpr

  type Origin = string

  type Name = seq<string>

  /** An INCLUDE item and the part of the text it occupies. */
  datatype Include = Include(path: string, start: nat, end: nat)

  /** A parsed text: the module it declares, if any, the modules it uses and the includes among its items. */
  datatype Program = Program(named: Option<Name>, uses: seq<Name>, includes: seq<Include>)

  /** Readable files, and how origins, texts and include paths are understood. */
  datatype World = World(files: map<Origin, string>, resolve: Origin -> Origin, key: Origin -> Origin,
                         parse: string -> Option<Program>, target: (Origin, string) -> Option<Origin>)

  /** A parsed include lies within the text it was parsed from. */
  ghost predicate Fits(w: World) {
    forall t :: w.parse(t).Some? ==> Within(w.parse(t).value.includes, |t|)
  }

  ghost predicate Within(includes: seq<Include>, n: nat) {
    forall k :: 0 <= k < |includes| ==> includes[k].start <= includes[k].end <= n
  }

  datatype Problem =
    | Recursive(at: Origin)
    | Unreadable(at: Origin)
    | Unparsable(at: Origin)
    | NamedFragment(at: Origin)
    | BadPath(at: Origin, path: string)

  // ----- what expansion computes -----

  datatype Segment = Segment(start: nat, end: nat, file: nat, original: nat) {
    predicate Covers(p: nat) { start <= p < end }
  }

  datatype File = File(origin: Origin, text: string)

  /** Expanded text with its files and its segments. */
  datatype Draft = Draft(text: string, files: seq<File>, segments: seq<Segment>)

  function Piece(source: string, a: nat, b: nat): string
    requires b <= |source|
  {
    if a < b then source[a..b] else ""
  }

  /** Appending a part of a file's own text. */
  function Sliced(d: Draft, file: nat, source: string, a: nat, b: nat): Draft
    requires b <= |source|
  {
    if a < b then Draft(d.text + source[a..b], d.files, d.segments + [Segment(|d.text|, |d.text| + (b - a), file, a)]) else d
  }

  function Moved(s: Segment, offset: nat, base: nat): Segment {
    Segment(s.start + offset, s.end + offset, s.file + base, s.original)
  }

  function Shifted(segments: seq<Segment>, offset: nat, base: nat): (r: seq<Segment>)
    ensures |r| == |segments| && forall i :: 0 <= i < |r| ==> r[i] == Moved(segments[i], offset, base)
  {
    seq(|segments|, i requires 0 <= i < |segments| => Moved(segments[i], offset, base))
  }

  /** Appending an expanded text as a whole. */
  function Attached(d: Draft, e: Draft): Draft {
    Draft(d.text + e.text, d.files + e.files, d.segments + Shifted(e.segments, |d.text|, |d.files|))
  }

  /**
   * An included text that does not end its last line needs a line feed when something follows the INCLUDE item
   * directly.
   */
  predicate NeedsBreak(text: string, source: string, end: nat)
    requires end <= |source|
  {
    !(text != "" && text[|text| - 1] == '\n') && end < |source| && !C.IsSpace(source[end])
  }

  function Parted(d: Draft, source: string, end: nat): Draft
    requires end <= |source|
  {
    if NeedsBreak(d.text, source, end) then d.(text := d.text + "\n") else d
  }

  predicate LineEnded(text: string) { |text| > 0 && text[|text| - 1] == '\n' }

  /** What follows an INCLUDE item stays apart from the included text, by white space of its own or a new line feed. */
  lemma PartedExactly(d: Draft, source: string, end: nat)
    requires end <= |source|
    ensures var r := Parted(d, source, end);
      && r.files == d.files && r.segments == d.segments
      && (end < |source| ==> C.IsSpace(source[end]) || LineEnded(r.text))
      && r.text == if end == |source| || C.IsSpace(source[end]) || LineEnded(d.text) then d.text else d.text + "\n"
  {
  }

  function Inserted(item: Include, sorted: seq<Include>): (r: seq<Include>)
    ensures multiset(r) == multiset(sorted + [item])
  {
    if sorted == [] || sorted[|sorted| - 1].start <= item.start then sorted + [item]
    else
      assert sorted == sorted[..|sorted| - 1] + [sorted[|sorted| - 1]];
      Inserted(item, sorted[..|sorted| - 1]) + [sorted[|sorted| - 1]]
  }

  /** The includes by their place in the text; those at the same place keep their order. */
  function ByStart(includes: seq<Include>): (r: seq<Include>)
    ensures multiset(r) == multiset(includes)
  {
    if includes == [] then []
    else
      assert includes == includes[..|includes| - 1] + [includes[|includes| - 1]];
      Inserted(includes[|includes| - 1], ByStart(includes[..|includes| - 1]))
  }

  function Keys(w: World): set<Origin> { set o | o in w.files :: w.key(o) }

  function SetOf(s: seq<Origin>): set<Origin> { set x | x in s }

  /** How many files are not being expanded. */
  function Free(w: World, active: seq<Origin>): nat { |Keys(w) - SetOf(active)| }

  lemma FreeShrinks(w: World, active: seq<Origin>, k: Origin)
    requires k in Keys(w) && k !in active
    ensures Free(w, active + [k]) < Free(w, active)
  {
    assert Keys(w) - SetOf(active + [k]) == (Keys(w) - SetOf(active)) - {k};
  }

  type Outcome = Result<Draft, seq<Problem>>

  /** Expanding the file at a resolved origin while the active files are being expanded. */
  function At(w: World, o: Origin, active: seq<Origin>, allowNamed: bool): Outcome
    requires Fits(w)
    decreases Free(w, active), 0
  {
    if w.key(o) in active then Err([Recursive(o)])
    else if o !in w.files then Err([Unreadable(o)])
    else
      var p := w.parse(w.files[o]);
      if p.None? then Err([Unparsable(o)])
      else if p.value.named.Some? && !allowNamed then Err([NamedFragment(o)])
      else
        FreeShrinks(w, active, w.key(o));
        WithinSorted(p.value.includes, |w.files[o]|);
        Splice(w, o, ByStart(p.value.includes), active + [w.key(o)], Draft("", [File(o, w.files[o])], []), [], 0)
  }

  /** Expanding the remaining includes of a file whose text was taken over up to the cursor. */
  function Splice(w: World, o: Origin, includes: seq<Include>, active: seq<Origin>, d: Draft, problems: seq<Problem>,
      cursor: nat): Outcome
    requires Fits(w) && o in w.files && Within(includes, |w.files[o]|)
    decreases Free(w, active), 3 + |includes|
  {
    var source := w.files[o];
    if includes == [] then
      if problems == [] then Ok(Sliced(d, 0, source, cursor, |source|)) else Err(problems)
    else
      var item := includes[0];
      Splice(w, o, includes[1..], active, Advanced(w, o, item, active, d, cursor), problems + Complaints(w, o, item, active), item.end)
  }

  /** Taking over the text up to an INCLUDE item and then what the item contributes. */
  function Advanced(w: World, o: Origin, item: Include, active: seq<Origin>, d: Draft, cursor: nat): Draft
    requires Fits(w) && o in w.files && item.start <= item.end <= |w.files[o]|
    decreases Free(w, active), 2
  {
    var before := Sliced(d, 0, w.files[o], cursor, item.start);
    match Child(w, o, item, active)
    case Ok(e) => Parted(Attached(before, e), w.files[o], item.end)
    case Err(_) => before
  }

  /** What an INCLUDE item of a file contributes. */
  function Child(w: World, o: Origin, item: Include, active: seq<Origin>): Outcome
    requires Fits(w)
    decreases Free(w, active), 1
  {
    var t := w.target(o, item.path);
    if t.None? then Err([BadPath(o, item.path)]) else At(w, w.resolve(t.value), active, false)
  }

  function Complaints(w: World, o: Origin, item: Include, active: seq<Origin>): seq<Problem>
    requires Fits(w)
    decreases Free(w, active), 2
  {
    var r := Child(w, o, item, active);
    if r.Ok? then [] else r.error
  }

  lemma WithinSorted(includes: seq<Include>, n: nat)
    requires Within(includes, n)
    ensures Within(ByStart(includes), n)
  {
    var r := ByStart(includes);
    forall k | 0 <= k < |r|
      ensures r[k].start <= r[k].end <= n
    {
      SameMembers(r, includes, r[k]);
      var j :| 0 <= j < |includes| && includes[j] == r[k];
    }
  }

  lemma SameMembers<T>(a: seq<T>, b: seq<T>, x: T)
    requires multiset(a) == multiset(b)
    ensures x in a <==> x in b
  {
    assert x in multiset(a) <==> x in a;
    assert x in multiset(b) <==> x in b;
  }

  // ----- the map is exact -----

  predicate Mapped(s: Segment, text: string, files: seq<File>) {
    && s.start < s.end <= |text| && s.file < |files|
    && s.original + (s.end - s.start) <= |files[s.file].text|
    && text[s.start..s.end] == files[s.file].text[s.original..s.original + (s.end - s.start)]
  }

  ghost predicate Ordered(segments: seq<Segment>) {
    forall i, j :: 0 <= i < j < |segments| ==> segments[i].end <= segments[j].start
  }

  predicate Covered(segments: seq<Segment>, p: nat) { exists i :: 0 <= i < |segments| && segments[i].Covers(p) }

  /** Segments lie one after the other, each repeats its file's text, and only line feeds lie outside them. */
  ghost predicate Exact(d: Draft) {
    && (forall i :: 0 <= i < |d.segments| ==> Mapped(d.segments[i], d.text, d.files))
    && Ordered(d.segments)
    && forall p :: 0 <= p < |d.text| ==> Covered(d.segments, p) || d.text[p] == '\n'
  }

  lemma MappedLonger(s: Segment, text: string, files: seq<File>, more: string, others: seq<File>)
    requires Mapped(s, text, files)
    ensures Mapped(s, text + more, files + others)
  {
    assert (text + more)[s.start..s.end] == text[s.start..s.end];
  }

  lemma CoveredLonger(a: seq<Segment>, b: seq<Segment>, p: nat)
    ensures Covered(a + b, p) <==> Covered(a, p) || Covered(b, p)
  {
    if i :| 0 <= i < |a| && a[i].Covers(p) { assert (a + b)[i] == a[i]; }
    if i :| 0 <= i < |b| && b[i].Covers(p) { assert (a + b)[|a| + i] == b[i]; }
  }

  lemma SlicedExact(d: Draft, file: nat, source: string, a: nat, b: nat)
    requires Exact(d) && b <= |source| && file < |d.files| && d.files[file].text == source
    ensures Exact(Sliced(d, file, source, a, b))
  {
    hide Covered;
    if a < b {
      var r := Sliced(d, file, source, a, b);
      var s := Segment(|d.text|, |d.text| + (b - a), file, a);
      assert Mapped(s, r.text, r.files) by {
        assert r.text[s.start..s.end] == source[a..b];
      }
      assert d.files + [] == d.files;
      forall i | 0 <= i < |r.segments|
        ensures Mapped(r.segments[i], r.text, r.files)
      {
        if i < |d.segments| { MappedLonger(d.segments[i], d.text, d.files, source[a..b], []); }
      }
      forall p: nat | p < |r.text|
        ensures Covered(r.segments, p) || r.text[p] == '\n'
      {
        CoveredLonger(d.segments, [s], p);
        CoversOne(s, p);
      }
    }
  }

  lemma CoversOne(s: Segment, p: nat)
    ensures Covered([s], p) <==> s.Covers(p)
  {
    if s.Covers(p) { assert [s][0].Covers(p); }
  }

  lemma CoveredMoved(segments: seq<Segment>, offset: nat, base: nat, p: nat)
    requires Covered(segments, p)
    ensures Covered(Shifted(segments, offset, base), p + offset)
  {
    var i :| 0 <= i < |segments| && segments[i].Covers(p);
    assert Shifted(segments, offset, base)[i].Covers(p + offset);
  }

  lemma MappedMoved(s: Segment, d: Draft, e: Draft)
    requires Mapped(s, e.text, e.files)
    ensures Mapped(Moved(s, |d.text|, |d.files|), d.text + e.text, d.files + e.files)
  {
    var m := Moved(s, |d.text|, |d.files|);
    assert (d.text + e.text)[m.start..m.end] == e.text[s.start..s.end];
    assert (d.files + e.files)[m.file] == e.files[s.file];
  }

  lemma AttachedExact(d: Draft, e: Draft)
    requires Exact(d) && Exact(e)
    ensures Exact(Attached(d, e))
  {
    hide Covered, Mapped, Moved;
    var r := Attached(d, e);
    var n := |d.segments|;
    forall i | 0 <= i < |r.segments|
      ensures Mapped(r.segments[i], r.text, r.files)
    {
      if i < n {
        MappedLonger(d.segments[i], d.text, d.files, e.text, e.files);
      } else {
        MappedMoved(e.segments[i - n], d, e);
      }
    }
    AttachedOrdered(d, e);
    forall p: nat | p < |r.text|
      ensures Covered(r.segments, p) || r.text[p] == '\n'
    {
      CoveredLonger(d.segments, Shifted(e.segments, |d.text|, |d.files|), p);
      if p >= |d.text| && Covered(e.segments, p - |d.text|) { CoveredMoved(e.segments, |d.text|, |d.files|, p - |d.text|); }
    }
  }

  lemma AttachedOrdered(d: Draft, e: Draft)
    requires Exact(d) && Exact(e)
    ensures Ordered(Attached(d, e).segments)
  {
    hide Covered;
    var all, n := Attached(d, e).segments, |d.segments|;
    forall i, j | 0 <= i < j < |all|
      ensures all[i].end <= all[j].start
    {
      if i < n { assert Mapped(d.segments[i], d.text, d.files); }
    }
  }

  lemma FeedExact(d: Draft)
    requires Exact(d)
    ensures Exact(d.(text := d.text + "\n"))
  {
    hide Covered;
    assert d.files + [] == d.files;
    forall i | 0 <= i < |d.segments|
      ensures Mapped(d.segments[i], d.text + "\n", d.files)
    {
      MappedLonger(d.segments[i], d.text, d.files, "\n", []);
    }
  }

  lemma PartedExact(d: Draft, source: string, end: nat)
    requires Exact(d) && end <= |source|
    ensures Exact(Parted(d, source, end))
  {
    FeedExact(d);
  }

  /** Every file in the draft is a readable file with its own text, the first is the expanded one. */
  ghost predicate Genuine(w: World, o: Origin, d: Draft) {
    && |d.files| > 0 && d.files[0].origin == o
    && forall i :: 0 <= i < |d.files| ==> d.files[i].origin in w.files && d.files[i].text == w.files[d.files[i].origin]
  }

  /** Whatever is expanded, the map of the result is exact and its files are the world's. */
  lemma {:induction false} ExpansionExact(w: World, o: Origin, active: seq<Origin>, allowNamed: bool)
    requires Fits(w)
    ensures var r := At(w, o, active, allowNamed); r.Ok? ==> Exact(r.value) && Genuine(w, o, r.value)
    decreases Free(w, active), 0
  {
    hide Exact, Splice, ByStart, Free;
    var r := At(w, o, active, allowNamed);
    if r.Ok? {
      FreeShrinks(w, active, w.key(o));
      var includes := w.parse(w.files[o]).value.includes;
      WithinSorted(includes, |w.files[o]|);
      var d := Draft("", [File(o, w.files[o])], []);
      EmptyExact(d);
      SpliceExact(w, o, ByStart(includes), active + [w.key(o)], d, [], 0);
    }
  }

  lemma EmptyExact(d: Draft)
    requires d.text == "" && d.segments == []
    ensures Exact(d)
  {
  }

  lemma {:induction false} SpliceExact(w: World, o: Origin, includes: seq<Include>, active: seq<Origin>, d: Draft,
                                       problems: seq<Problem>, cursor: nat)
    requires Fits(w) && o in w.files && Within(includes, |w.files[o]|) && Exact(d) && Genuine(w, o, d)
    ensures var r := Splice(w, o, includes, active, d, problems, cursor); r.Ok? ==>
      Exact(r.value) && Genuine(w, o, r.value)
    decreases Free(w, active), 3 + |includes|
  {
    hide Exact, At, Free, Advanced, Complaints;
    if includes == [] {
      SlicedExact(d, 0, w.files[o], cursor, |w.files[o]|);
    } else {
      var item := includes[0];
      AdvancedExact(w, o, item, active, d, cursor);
      SpliceExact(w, o, includes[1..], active, Advanced(w, o, item, active, d, cursor), problems + Complaints(w, o, item, active),
        item.end);
    }
  }

  lemma {:induction false} AdvancedExact(w: World, o: Origin, item: Include, active: seq<Origin>, d: Draft, cursor: nat)
    requires Fits(w) && o in w.files && item.start <= item.end <= |w.files[o]| && Exact(d) && Genuine(w, o, d)
    ensures var r := Advanced(w, o, item, active, d, cursor); Exact(r) && Genuine(w, o, r)
    decreases Free(w, active), 2
  {
    hide Exact, At, Free, NeedsBreak;
    var before := Sliced(d, 0, w.files[o], cursor, item.start);
    SlicedExact(d, 0, w.files[o], cursor, item.start);
    match Child(w, o, item, active)
    case Ok(e) =>
      ChildExact(w, o, item, active);
      AttachedExact(before, e);
      PartedExact(Attached(before, e), w.files[o], item.end);
    case Err(_) =>
  }

  lemma {:induction false} ChildExact(w: World, o: Origin, item: Include, active: seq<Origin>)
    requires Fits(w) && Child(w, o, item, active).Ok?
    ensures var e := Child(w, o, item, active).value; Exact(e) && Genuine(w, w.resolve(w.target(o, item.path).value), e)
    decreases Free(w, active), 1
  {
    hide Exact, At, Free;
    ExpansionExact(w, w.resolve(w.target(o, item.path).value), active, false);
  }

  // ----- nothing of a file's own text is lost, moved or repeated -----

  /** The parts taken from the first file, in order. */
  function Own(segments: seq<Segment>, source: string): string
    requires Inside(segments, source)
  {
    if segments == [] then ""
    else
      var s := segments[|segments| - 1];
      assert OwnFits(s, source);
      Own(segments[..|segments| - 1], source) + OwnPart(s, source)
  }

  function Length(s: Segment): nat { if s.start < s.end then s.end - s.start else 0 }

  predicate OwnFits(s: Segment, source: string) { s.file == 0 ==> s.original + Length(s) <= |source| }

  function OwnPart(s: Segment, source: string): string
    requires OwnFits(s, source)
  {
    if s.file == 0 then source[s.original..s.original + Length(s)] else ""
  }

  /** A text from the cursor on with its includes cut out. */
  function Cut(source: string, includes: seq<Include>, cursor: nat): string
    requires Within(includes, |source|)
  {
    if includes == [] then Piece(source, cursor, |source|)
    else Piece(source, cursor, includes[0].start) + Cut(source, includes[1..], includes[0].end)
  }

  /** The segments' own parts are inside the file. */
  predicate Inside(segments: seq<Segment>, source: string) {
    forall i :: 0 <= i < |segments| ==> OwnFits(segments[i], source)
  }

  lemma {:induction false} OwnForeign(a: seq<Segment>, b: seq<Segment>, source: string)
    requires Inside(a, source) && forall i :: 0 <= i < |b| ==> b[i].file > 0
    ensures Inside(a + b, source) && Own(a + b, source) == Own(a, source)
    decreases |b|
  {
    if b == [] {
      assert a + b == a;
    } else {
      var init := b[..|b| - 1];
      assert (a + b)[..|a + b| - 1] == a + init;
      OwnForeign(a, init, source);
    }
  }

  lemma OwnSliced(d: Draft, source: string, a: nat, b: nat)
    requires b <= |source| && Inside(d.segments, source)
    ensures var r := Sliced(d, 0, source, a, b);
      Inside(r.segments, source) && Own(r.segments, source) == Own(d.segments, source) + Piece(source, a, b)
  {
    if a < b {
      var r := Sliced(d, 0, source, a, b);
      assert r.segments[..|r.segments| - 1] == d.segments;
    }
  }

  lemma {:induction false} OwnText(w: World, o: Origin, includes: seq<Include>, active: seq<Origin>, d: Draft,
                                   problems: seq<Problem>, cursor: nat)
    requires Fits(w) && o in w.files && Within(includes, |w.files[o]|) && Inside(d.segments, w.files[o])
      && d.files != []
    ensures var r := Splice(w, o, includes, active, d, problems, cursor); r.Ok? ==>
      && Inside(r.value.segments, w.files[o])
      && Own(r.value.segments, w.files[o]) == Own(d.segments, w.files[o]) + Cut(w.files[o], includes, cursor)
    decreases |includes|
  {
    hide Own, Inside, Advanced, Complaints, Sliced, Piece;
    if includes == [] {
      OwnSliced(d, w.files[o], cursor, |w.files[o]|);
    } else {
      var item := includes[0];
      OwnAdvanced(w, o, item, active, d, cursor);
      OwnText(w, o, includes[1..], active, Advanced(w, o, item, active, d, cursor), problems + Complaints(w, o, item, active),
        item.end);
      Associate(Own(d.segments, w.files[o]), Piece(w.files[o], cursor, item.start),
          Cut(w.files[o], includes[1..], item.end));
    }
  }

  lemma Associate(a: string, b: string, c: string)
    ensures a + b + c == a + (b + c)
  {
  }

  lemma OwnAdvanced(w: World, o: Origin, item: Include, active: seq<Origin>, d: Draft, cursor: nat)
    requires Fits(w) && o in w.files && item.start <= item.end <= |w.files[o]| && Inside(d.segments, w.files[o])
      && d.files != []
    ensures var r := Advanced(w, o, item, active, d, cursor);
      && Inside(r.segments, w.files[o]) && r.files != []
      && Own(r.segments, w.files[o]) == Own(d.segments, w.files[o]) + Piece(w.files[o], cursor, item.start)
  {
    hide Own, Child, NeedsBreak, Inside;
    var source := w.files[o];
    var before := Sliced(d, 0, source, cursor, item.start);
    OwnSliced(d, source, cursor, item.start);
    match Child(w, o, item, active)
    case Ok(e) => OwnForeign(before.segments, Shifted(e.segments, |before.text|, |before.files|), source);
    case Err(_) =>
  }

  /** The expanded text is the file's text with every include replaced by what it expands to. */
  function Woven(source: string, includes: seq<Include>, inner: seq<string>, text: string, cursor: nat): string
    requires |inner| == |includes| && Within(includes, |source|)
  {
    if includes == [] then text + Piece(source, cursor, |source|)
    else
      var joined := text + Piece(source, cursor, includes[0].start) + inner[0];
      var parted := if NeedsBreak(joined, source, includes[0].end) then joined + "\n" else joined;
      Woven(source, includes[1..], inner[1..], parted, includes[0].end)
  }

  function Inner(w: World, o: Origin, includes: seq<Include>, active: seq<Origin>): (r: seq<string>)
    requires Fits(w)
    ensures |r| == |includes|
  {
    seq(|includes|, i requires 0 <= i < |includes| => var e := Child(w, o, includes[i], active); if e.Ok? then e.value.text else "")
  }

  lemma {:induction false} SpliceWeaves(w: World, o: Origin, includes: seq<Include>, active: seq<Origin>, d: Draft,
                                        problems: seq<Problem>, cursor: nat)
    requires Fits(w) && o in w.files && Within(includes, |w.files[o]|)
    ensures var r := Splice(w, o, includes, active, d, problems, cursor);
      r.Ok? ==> r.value.text == Woven(w.files[o], includes, Inner(w, o, includes, active), d.text, cursor)
    decreases |includes|
  {
    hide Advanced, Complaints, NeedsBreak;
    if includes == [] {
      assert Inner(w, o, includes, active) == [];
    } else {
      var item, next := includes[0], problems + Complaints(w, o, includes[0], active);
      var a := Advanced(w, o, item, active, d, cursor);
      assert Inner(w, o, includes, active)[1..] == Inner(w, o, includes[1..], active);
      SpliceWeaves(w, o, includes[1..], active, a, next, item.end);
      if Complaints(w, o, item, active) == [] {
        AdvancedWeaves(w, o, item, active, d, cursor);
      } else {
        SpliceProblems(w, o, includes[1..], active, a, next, item.end);
      }
    }
  }

  lemma AdvancedWeaves(w: World, o: Origin, item: Include, active: seq<Origin>, d: Draft, cursor: nat)
    requires Fits(w) && o in w.files && item.start <= item.end <= |w.files[o]| && Complaints(w, o, item, active) == []
    ensures Child(w, o, item, active).Ok?
    ensures var joined := d.text + Piece(w.files[o], cursor, item.start) + Child(w, o, item, active).value.text;
      Advanced(w, o, item, active, d, cursor).text == if NeedsBreak(joined, w.files[o], item.end) then joined + "\n" else joined
  {
    hide Child, NeedsBreak;
    if Child(w, o, item, active).Err? { ProblemsExist(w, o, item, active); }
    assert Sliced(d, 0, w.files[o], cursor, item.start).text == d.text + Piece(w.files[o], cursor, item.start);
  }

  /** An expanded file: its own text without its includes, and, in their places, the expanded included files. */
  lemma ExpandedText(w: World, o: Origin, active: seq<Origin>, allowNamed: bool)
    requires Fits(w) && At(w, o, active, allowNamed).Ok?
    ensures o in w.files && w.parse(w.files[o]).Some?
    ensures var d, source, includes := At(w, o, active, allowNamed).value, w.files[o], ByStart(w.parse(w.files[o]).value.includes);
      && Within(includes, |source|) && Inside(d.segments, source)
      && Own(d.segments, source) == Cut(source, includes, 0)
      && d.text == Woven(source, includes, Inner(w, o, includes, active + [w.key(o)]), "", 0)
  {
    hide Splice, Inner, Cut, Woven;
    var includes := ByStart(w.parse(w.files[o]).value.includes);
    WithinSorted(w.parse(w.files[o]).value.includes, |w.files[o]|);
    hide ByStart;
    var d := Draft("", [File(o, w.files[o])], []);
    OwnText(w, o, includes, active + [w.key(o)], d, [], 0);
    SpliceWeaves(w, o, includes, active + [w.key(o)], d, [], 0);
    assert "" + Cut(w.files[o], includes, 0) == Cut(w.files[o], includes, 0);
  }

  ghost predicate StartsAscend(s: seq<Include>) { forall i, j :: 0 <= i < j < |s| ==> s[i].start <= s[j].start }

  lemma {:induction false} InsertedAscends(item: Include, sorted: seq<Include>)
    requires StartsAscend(sorted)
    ensures StartsAscend(Inserted(item, sorted))
    ensures forall i: nat :: i < |Inserted(item, sorted)| ==>
      Inserted(item, sorted)[i] == item || Inserted(item, sorted)[i] in sorted
  {
    if sorted != [] && sorted[|sorted| - 1].start > item.start {
      var init, last := sorted[..|sorted| - 1], sorted[|sorted| - 1];
      InsertedAscends(item, init);
      var r := Inserted(item, init);
      forall i | 0 <= i < |r|
        ensures r[i].start <= last.start && (r[i] == item || r[i] in sorted)
      {
        assert r[i] == item || r[i] in init;
      }
    }
  }

  lemma {:induction false} ByStartAscends(includes: seq<Include>)
    ensures StartsAscend(ByStart(includes))
  {
    if includes != [] {
      ByStartAscends(includes[..|includes| - 1]);
      InsertedAscends(includes[|includes| - 1], ByStart(includes[..|includes| - 1]));
    }
  }

  /**
   * The place a position of the expanded text maps to holds the same character; a position without one holds a line
   * feed.
   */
  lemma MapIsFaithful(d: Draft, p: nat)
    requires Exact(d) && p < |d.text|
    ensures (forall i :: 0 <= i < |d.segments| ==> !d.segments[i].Covers(p)) ==> d.text[p] == '\n'
    ensures forall i :: 0 <= i < |d.segments| && d.segments[i].Covers(p) ==>
      var s := d.segments[i];
      && s.file < |d.files| && s.original + (p - s.start) < |d.files[s.file].text|
      && d.files[s.file].text[s.original + (p - s.start)] == d.text[p]
    ensures forall i, j :: 0 <= i < |d.segments| && 0 <= j < |d.segments| && d.segments[i].Covers(p) && d.segments[j].Covers(p) ==> i == j
  {
    forall i | 0 <= i < |d.segments| && d.segments[i].Covers(p)
      ensures d.segments[i].file < |d.files|
        && d.segments[i].original + (p - d.segments[i].start) < |d.files[d.segments[i].file].text|
      ensures d.files[d.segments[i].file].text[d.segments[i].original + (p - d.segments[i].start)] == d.text[p]
    {
      var s := d.segments[i];
      assert Mapped(s, d.text, d.files);
      assert d.text[s.start..s.end][p - s.start] == d.text[p];
    }
  }

  // ----- exactly when expansion succeeds -----

  function AllComplaints(w: World, o: Origin, includes: seq<Include>, active: seq<Origin>): seq<Problem>
    requires Fits(w)
  {
    if includes == [] then [] else Complaints(w, o, includes[0], active) + AllComplaints(w, o, includes[1..], active)
  }

  /** Every include is tried, and all their problems are reported, in order. */
  lemma {:induction false} SpliceProblems(w: World, o: Origin, includes: seq<Include>, active: seq<Origin>, d: Draft,
                                          problems: seq<Problem>, cursor: nat)
    requires Fits(w) && o in w.files && Within(includes, |w.files[o]|)
    ensures var all := problems + AllComplaints(w, o, includes, active);
      match Splice(w, o, includes, active, d, problems, cursor)
      case Ok(_) => all == []
      case Err(reported) => reported == all && all != []
    decreases |includes|
  {
    hide Advanced, Complaints;
    if includes == [] {
      assert problems + [] == problems;
    } else {
      var more, rest := Complaints(w, o, includes[0], active), AllComplaints(w, o, includes[1..], active);
      SpliceProblems(w, o, includes[1..], active, Advanced(w, o, includes[0], active, d, cursor), problems + more,
          includes[0].end);
      assert problems + (more + rest) == problems + more + rest;
    }
  }

  lemma {:induction false} ProblemsExist(w: World, o: Origin, item: Include, active: seq<Origin>)
    requires Fits(w) && Child(w, o, item, active).Err?
    ensures Child(w, o, item, active).error != []
  {
    hide Splice, ByStart;
    var t := w.target(o, item.path);
    if t.Some? { ErrorsExist(w, w.resolve(t.value), active, false); }
  }

  lemma ErrorsExist(w: World, o: Origin, active: seq<Origin>, allowNamed: bool)
    requires Fits(w) && At(w, o, active, allowNamed).Err?
    ensures At(w, o, active, allowNamed).error != []
  {
    hide Splice, ByStart;
    if w.key(o) !in active && o in w.files && w.parse(w.files[o]).Some? && (w.parse(w.files[o]).value.named.Some? ==> allowNamed) {
      var includes := w.parse(w.files[o]).value.includes;
      WithinSorted(includes, |w.files[o]|);
      SpliceProblems(w, o, ByStart(includes), active + [w.key(o)], Draft("", [File(o, w.files[o])], []), [], 0);
    }
  }

  predicate Leads(w: World, a: Origin, item: Include, b: Origin) {
    var t := w.target(a, item.path);
    t.Some? && w.resolve(t.value) == b
  }

  ghost predicate Step(w: World, a: Origin, b: Origin) {
    && a in w.files && w.parse(w.files[a]).Some?
    && exists item :: item in w.parse(w.files[a]).value.includes && Leads(w, a, item, b)
  }

  /** A way through files along their includes. */
  ghost predicate Trail(w: World, p: seq<Origin>) { forall i :: 0 <= i < |p| - 1 ==> Step(w, p[i], p[i + 1]) }

  /**
   * The file can be read and parsed, is no module where it must be a fragment, and its include paths have a meaning.
   */
  ghost predicate Loads(w: World, o: Origin, allowNamed: bool) {
    && o in w.files && w.parse(w.files[o]).Some?
    && (w.parse(w.files[o]).value.named.Some? ==> allowNamed)
    && forall item :: item in w.parse(w.files[o]).value.includes ==> w.target(o, item.path).Some?
  }

  /** No file on the way is being expanded already. */
  ghost predicate Fresh(w: World, p: seq<Origin>, active: seq<Origin>) {
    forall i :: 0 <= i < |p| ==> w.key(p[i]) !in active && forall j :: 0 <= j < i ==> w.key(p[j]) != w.key(p[i])
  }

  ghost predicate GoodTrail(w: World, p: seq<Origin>, active: seq<Origin>, allowNamed: bool) {
    Fresh(w, p, active) && forall i :: 0 <= i < |p| ==> Loads(w, p[i], i == 0 && allowNamed)
  }

  lemma {:induction false} NoComplaints(w: World, o: Origin, includes: seq<Include>, active: seq<Origin>, item: Include)
    requires Fits(w) && AllComplaints(w, o, includes, active) == [] && item in includes
    ensures Complaints(w, o, item, active) == []
    decreases |includes|
  {
    hide Complaints;
    if item != includes[0] { NoComplaints(w, o, includes[1..], active, item); }
  }

  lemma {:induction false} ComplaintFrom(w: World, o: Origin, includes: seq<Include>, active: seq<Origin>, q: Problem)
    returns (item: Include)
    requires Fits(w) && q in AllComplaints(w, o, includes, active)
    ensures item in includes && q in Complaints(w, o, item, active)
    decreases |includes|
  {
    hide Complaints;
    if q in Complaints(w, o, includes[0], active) {
      item := includes[0];
    } else {
      item := ComplaintFrom(w, o, includes[1..], active, q);
    }
  }

  lemma OkLoads(w: World, o: Origin, active: seq<Origin>, allowNamed: bool)
    requires Fits(w) && At(w, o, active, allowNamed).Ok?
    ensures Loads(w, o, allowNamed) && w.key(o) !in active
    ensures forall item :: item in w.parse(w.files[o]).value.includes ==> Child(w, o, item, active + [w.key(o)]).Ok?
  {
    hide Splice, ByStart, Child, At;
    var includes := OkSplices(w, o, active, allowNamed);
    var now := active + [w.key(o)];
    forall item | item in includes
      ensures Child(w, o, item, now).Ok? && w.target(o, item.path).Some?
    {
      SameMembers(ByStart(includes), includes, item);
      NoComplaints(w, o, ByStart(includes), now, item);
      if Child(w, o, item, now).Err? { ProblemsExist(w, o, item, now); }
      ChildTarget(w, o, item, now);
    }
  }

  lemma ChildTarget(w: World, o: Origin, item: Include, active: seq<Origin>)
    requires Fits(w) && Child(w, o, item, active).Ok?
    ensures w.target(o, item.path).Some?
    ensures At(w, w.resolve(w.target(o, item.path).value), active, false).Ok?
  {
  }

  lemma OkSplices(w: World, o: Origin, active: seq<Origin>, allowNamed: bool) returns (includes: seq<Include>)
    requires Fits(w) && At(w, o, active, allowNamed).Ok?
    ensures w.key(o) !in active && o in w.files && w.parse(w.files[o]).Some?
    ensures (w.parse(w.files[o]).value.named.Some? ==> allowNamed) && includes == w.parse(w.files[o]).value.includes
    ensures AllComplaints(w, o, ByStart(includes), active + [w.key(o)]) == []
  {
    hide Splice, ByStart, AllComplaints;
    includes := w.parse(w.files[o]).value.includes;
    WithinSorted(includes, |w.files[o]|);
    SpliceProblems(w, o, ByStart(includes), active + [w.key(o)], Draft("", [File(o, w.files[o])], []), [], 0);
  }

  /** After a success, every way along includes can be read and never comes back. */
  lemma {:induction false} OkTrail(w: World, o: Origin, active: seq<Origin>, allowNamed: bool, p: seq<Origin>)
    requires Fits(w) && At(w, o, active, allowNamed).Ok? && p != [] && p[0] == o && Trail(w, p)
    ensures GoodTrail(w, p, active, allowNamed)
    decreases |p|
  {
    hide At, Splice, ByStart, Child, Loads;
    OkLoads(w, o, active, allowNamed);
    if |p| > 1 {
      var now, rest := active + [w.key(o)], p[1..];
      assert Step(w, p[0], p[1]);
      var item :| item in w.parse(w.files[o]).value.includes && Leads(w, o, item, p[1]);
      ChildTarget(w, o, item, now);
      forall i | 0 <= i < |rest| - 1 ensures Step(w, rest[i], rest[i + 1]) { assert Step(w, p[i + 1], p[i + 2]); }
      OkTrail(w, p[1], now, false, rest);
      GoodTrailBefore(w, o, rest, active, allowNamed);
      assert [o] + rest == p;
    }
  }

  lemma GoodTrailBefore(w: World, o: Origin, rest: seq<Origin>, active: seq<Origin>, allowNamed: bool)
    requires GoodTrail(w, rest, active + [w.key(o)], false) && Loads(w, o, allowNamed) && w.key(o) !in active
    ensures GoodTrail(w, [o] + rest, active, allowNamed)
  {
    hide Loads;
    var p, now := [o] + rest, active + [w.key(o)];
    forall i | 0 <= i < |p|
      ensures w.key(p[i]) !in active && forall j :: 0 <= j < i ==> w.key(p[j]) != w.key(p[i])
      ensures Loads(w, p[i], i == 0 && allowNamed)
    {
      if i > 0 {
        assert p[i] == rest[i - 1] && w.key(rest[i - 1]) !in now;
        assert now[|active|] == w.key(o);
        forall j | 0 <= j < i ensures w.key(p[j]) != w.key(p[i]) { if j > 0 { assert p[j] == rest[j - 1]; } }
        assert w.key(p[i]) !in active by { assert forall k :: k in active ==> k in now; }
      }
    }
  }

  /** What a reported problem says of the file at the end of a way. */
  ghost predicate Blames(w: World, q: Problem, p: seq<Origin>, active: seq<Origin>)
    requires p != []
  {
    var o := p[|p| - 1];
    && q.at == o
    && match q
       case Recursive(_) => w.key(o) in active || exists j :: 0 <= j < |p| - 1 && w.key(p[j]) == w.key(o)
       case Unreadable(_) => o !in w.files
       case Unparsable(_) => o in w.files && w.parse(w.files[o]).None?
       case NamedFragment(_) => o in w.files && w.parse(w.files[o]).Some? && w.parse(w.files[o]).value.named.Some?
       case BadPath(_, path) => w.target(o, path).None?
  }

  /** Every reported problem is real: a way along includes leads to it. A recursive include is a way that comes back. */
  lemma {:induction false} ProblemIsReal(w: World, o: Origin, active: seq<Origin>, allowNamed: bool, q: Problem)
    returns (p: seq<Origin>)
    requires Fits(w) && At(w, o, active, allowNamed).Err? && q in At(w, o, active, allowNamed).error
    ensures p != [] && p[0] == o && Trail(w, p) && Blames(w, q, p, active) && !GoodTrail(w, p, active, allowNamed)
    decreases Free(w, active), 0
  {
    hide Splice, ByStart, Child, Free;
    p := [o];
    if w.key(o) !in active && o in w.files && w.parse(w.files[o]).Some? && (w.parse(w.files[o]).value.named.Some? ==> allowNamed) {
      var includes, now := w.parse(w.files[o]).value.includes, active + [w.key(o)];
      WithinSorted(includes, |w.files[o]|);
      SpliceProblems(w, o, ByStart(includes), now, Draft("", [File(o, w.files[o])], []), [], 0);
      assert [] + AllComplaints(w, o, ByStart(includes), now) == AllComplaints(w, o, ByStart(includes), now);
      var item := ComplaintFrom(w, o, ByStart(includes), now, q);
      SameMembers(ByStart(includes), includes, item);
      FreeShrinks(w, active, w.key(o));
      p := ComplaintIsReal(w, o, item, active, allowNamed, q);
    }
  }

  lemma {:induction false} ComplaintIsReal(w: World, o: Origin, item: Include, active: seq<Origin>, allowNamed: bool,
      q: Problem)
    returns (p: seq<Origin>)
    requires Fits(w) && o in w.files && w.parse(w.files[o]).Some? && item in w.parse(w.files[o]).value.includes
    requires q in Complaints(w, o, item, active + [w.key(o)])
    ensures p != [] && p[0] == o && Trail(w, p) && Blames(w, q, p, active) && !GoodTrail(w, p, active, allowNamed)
    decreases Free(w, active + [w.key(o)]), 1
  {
    hide At, Splice, ByStart, Free;
    var now := active + [w.key(o)];
    var t := w.target(o, item.path);
    if t.None? {
      p := [o];
      assert !Loads(w, o, allowNamed);
    } else {
      var b := w.resolve(t.value);
      var rest := ProblemIsReal(w, b, now, false, q);
      p := [o] + rest;
      assert Leads(w, o, item, b);
      assert Step(w, o, b);
      TrailBefore(w, o, rest);
      BlamesBefore(w, o, rest, active, q);
      BadTrailBefore(w, o, rest, active, allowNamed);
    }
  }

  lemma TrailBefore(w: World, o: Origin, rest: seq<Origin>)
    requires rest != [] && Trail(w, rest) && Step(w, o, rest[0])
    ensures Trail(w, [o] + rest)
  {
    hide Step;
    var p := [o] + rest;
    forall i | 0 <= i < |p| - 1
      ensures Step(w, p[i], p[i + 1])
    {
      if i > 0 { assert Step(w, rest[i - 1], rest[i - 1 + 1]); }
    }
  }

  lemma BlamesBefore(w: World, o: Origin, rest: seq<Origin>, active: seq<Origin>, q: Problem)
    requires rest != [] && Blames(w, q, rest, active + [w.key(o)])
    ensures Blames(w, q, [o] + rest, active)
  {
    var p := [o] + rest;
    var last := rest[|rest| - 1];
    assert p[|p| - 1] == last;
    if q.Recursive? && w.key(last) !in active {
      if w.key(last) == w.key(o) {
        assert w.key(p[0]) == w.key(last);
      } else {
        var j :| 0 <= j < |rest| - 1 && w.key(rest[j]) == w.key(last);
        assert p[j + 1] == rest[j];
      }
    }
  }

  lemma BadTrailBefore(w: World, o: Origin, rest: seq<Origin>, active: seq<Origin>, allowNamed: bool)
    requires !GoodTrail(w, rest, active + [w.key(o)], false)
    ensures !GoodTrail(w, [o] + rest, active, allowNamed)
  {
    hide Loads;
    var p, now := [o] + rest, active + [w.key(o)];
    if GoodTrail(w, p, active, allowNamed) {
      forall i | 0 <= i < |rest|
        ensures w.key(rest[i]) !in now && (forall j :: 0 <= j < i ==> w.key(rest[j]) != w.key(rest[i])) && Loads(w, rest[i], false)
      {
        assert p[i + 1] == rest[i];
        assert w.key(p[0]) != w.key(p[i + 1]);
        forall j | 0 <= j < i ensures w.key(rest[j]) != w.key(rest[i]) { assert p[j + 1] == rest[j]; }
      }
    }
  }

  /** A file expands if and only if every way along includes from it can be read and never comes back to a file. */
  lemma ExpandsExactly(w: World, o: Origin, allowNamed: bool)
    requires Fits(w)
    ensures At(w, o, [], allowNamed).Ok? <==>
      (forall p :: p != [] && p[0] == o && Trail(w, p) ==> GoodTrail(w, p, [], allowNamed))
  {
    hide At, Trail, GoodTrail, Blames;
    if At(w, o, [], allowNamed).Ok? {
      forall p | p != [] && p[0] == o && Trail(w, p)
        ensures GoodTrail(w, p, [], allowNamed)
      {
        OkTrail(w, o, [], allowNamed, p);
      }
    } else {
      ErrorsExist(w, o, [], allowNamed);
      var p := ProblemIsReal(w, o, [], allowNamed, At(w, o, [], allowNamed).error[0]);
    }
  }
}
