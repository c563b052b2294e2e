/** The loader that expands includes: it reads files, numbers them, and builds the text and its map side by side. */
module SourceLoader {
  import opened Wrappers
  import opened Includes
  import C = ConstExpr

  datatype Stored = Stored(id: nat, origin: Origin, text: string)

  datatype Place = Place(id: nat, origin: Origin, line: nat, column: nat, excerpt: string)

  function Bare(files: seq<Stored>): (r: seq<File>)
    ensures |r| == |files| && forall i :: 0 <= i < |r| ==> r[i] == File(files[i].origin, files[i].text)
  {
    seq(|files|, i requires 0 <= i < |files| => File(files[i].origin, files[i].text))
  }

  /** The files are numbered one after the other. */
  ghost predicate NumberedFrom(files: seq<Stored>, first: nat) {
    forall i :: 0 <= i < |files| ==> files[i].id == first + i
  }

  class SourceMap {
    var files: seq<Stored>
    var segments: seq<Segment>

    constructor ()
      ensures files == [] && segments == []
    {
      files, segments := [], [];
    }

    /** The draft this map makes with a text. */
    ghost function With(text: string): Draft
      reads this
    {
      Draft(text, Bare(files), segments)
    }

    method AddFile(id: nat, origin: Origin, text: string) returns (index: nat)
      modifies this
      ensures index == |old(files)| && files == old(files) + [Stored(id, origin, text)] && segments == old(segments)
    {
      index := |files|;
      files := files + [Stored(id, origin, text)];
    }

    method PushSegment(start: nat, end: nat, file: nat, original: nat)
      modifies this
      ensures files == old(files)
      ensures segments == old(segments) + if start < end then [Segment(start, end, file, original)] else []
    {
      if start < end {
        segments := segments + [Segment(start, end, file, original)];
      }
    }

    /** Appending another text's map behind `offset` characters. */
    method AppendShifted(other: SourceMap, offset: nat)
      requires other != this
      modifies this
      ensures files == old(files) + other.files
      ensures segments == old(segments) + Shifted(other.segments, offset, |old(files)|)
    {
      var base := |files|;
      files := files + other.files;
      segments := segments + Shifted(other.segments, offset, base);
    }

    /** The place of a character of the expanded text: the first segment that covers it decides. */
    method Location(p: nat) returns (r: Option<Place>)
      ensures !Covered(segments, p) ==> r.None?
      ensures forall k :: 0 <= k < |segments| && segments[k].Covers(p) && (forall i :: 0 <= i < k ==> !segments[i].Covers(p)) ==>
        Answers(r, files, segments[k], p)
    {
      for k := 0 to |segments|
        invariant forall i :: 0 <= i < k ==> !segments[i].Covers(p)
      {
        if segments[k].Covers(p) {
          var s := segments[k];
          if s.file >= |files| { return None; }
          var f, offset := files[s.file], s.original + (p - s.start);
          if offset > |f.text| { return None; }
          var line, column, excerpt := LocationParts(f.text, offset);
          return Some(Place(f.id, f.origin, line, column, excerpt));
        }
      }
      r := None;
    }
  }

  ghost predicate Answers(r: Option<Place>, files: seq<Stored>, s: Segment, p: nat)
    requires s.Covers(p)
  {
    if s.file < |files| && s.original + (p - s.start) <= |files[s.file].text| then
      var f := files[s.file];
      r.Some? && r.value.id == f.id && r.value.origin == f.origin
      && Describes(f.text, s.original + (p - s.start), r.value.line, r.value.column, r.value.excerpt)
    else
      r.None?
  }

  function Feeds(s: string): nat { if s == "" then 0 else Feeds(s[..|s| - 1]) + if s[|s| - 1] == '\n' then 1 else 0 }

  predicate Unbroken(s: string, a: nat, b: nat)
    requires b <= |s|
  {
    forall i :: a <= i < b ==> s[i] != '\n'
  }

  function TrimLeft(s: string): string { if s != "" && C.IsSpace(s[0]) then TrimLeft(s[1..]) else s }

  function TrimRight(s: string): string { if s != "" && C.IsSpace(s[|s| - 1]) then TrimRight(s[..|s| - 1]) else s }

  ghost predicate Blank(s: string, a: nat, b: nat)
    requires b <= |s|
  {
    forall i :: a <= i < b ==> C.IsSpace(s[i])
  }

  /** `t` is what is left of `s` without the white space at its ends. */
  ghost predicate Trimmed(s: string, t: string) {
    exists a: nat, b: nat :: TrimmedTo(s, a, b) && t == s[a..b]
  }

  ghost predicate TrimmedTo(s: string, a: nat, b: nat) {
    && a <= b <= |s| && Blank(s, 0, a) && Blank(s, b, |s|)
    && (a < b ==> !C.IsSpace(s[a]) && !C.IsSpace(s[b - 1]))
  }

  lemma {:induction false} LeftTrimmed(s: string) returns (a: nat)
    ensures a <= |s| && Blank(s, 0, a) && TrimLeft(s) == s[a..] && (a < |s| ==> !C.IsSpace(s[a]))
  {
    hide C.IsSpace;
    if s != "" && C.IsSpace(s[0]) {
      var k := LeftTrimmed(s[1..]);
      a := k + 1;
      forall i | 0 <= i < a ensures C.IsSpace(s[i]) { if i > 0 { assert s[1..][i - 1] == s[i]; } }
      assert s[1..][k..] == s[a..];
    } else {
      a := 0;
    }
  }

  lemma {:induction false} RightTrimmed(s: string) returns (b: nat)
    ensures b <= |s| && Blank(s, b, |s|) && TrimRight(s) == s[..b] && (b > 0 ==> !C.IsSpace(s[b - 1]))
  {
    hide C.IsSpace;
    var n := |s| - 1;
    if s != "" && C.IsSpace(s[n]) {
      b := RightTrimmed(s[..n]);
      forall i | b <= i < |s| ensures C.IsSpace(s[i]) { if i < n { assert s[..n][i] == s[i]; } }
      assert s[..n][..b] == s[..b];
    } else {
      b := |s|;
    }
  }

  lemma TrimsBoth(s: string)
    ensures Trimmed(s, TrimRight(TrimLeft(s)))
  {
    hide C.IsSpace, TrimLeft, TrimRight;
    var a := LeftTrimmed(s);
    var t := s[a..];
    var b := RightTrimmed(t);
    forall i | a + b <= i < |s| ensures C.IsSpace(s[i]) { assert t[i - a] == s[i]; }
    if b > 0 { assert t[0] == s[a] && t[b - 1] == s[a + b - 1]; }
    assert TrimmedTo(s, a, a + b) && t[..b] == s[a..a + b];
  }

  /** Lines and columns count from one; the excerpt is the line around the place without the white space at its ends. */
  ghost predicate Describes(s: string, offset: nat, line: nat, column: nat, excerpt: string)
    requires offset <= |s|
  {
    && line == 1 + Feeds(s[..offset])
    && 1 <= column <= offset + 1 && Unbroken(s, offset + 1 - column, offset)
    && (column <= offset ==> s[offset - column] == '\n')
    && exists end :: (offset <= end <= |s| && Unbroken(s, offset, end) && (end < |s| ==> s[end] == '\n')
      && Trimmed(s[offset + 1 - column..end], excerpt))
  }

  method LocationParts(s: string, offset: nat) returns (line: nat, column: nat, excerpt: string)
    requires offset <= |s|
    ensures Describes(s, offset, line, column, excerpt)
  {
    hide Trimmed, TrimLeft, TrimRight;
    line, column := 1, 1;
    for k := 0 to offset
      invariant line == 1 + Feeds(s[..k])
      invariant 1 <= column <= k + 1 && Unbroken(s, k + 1 - column, k) && (column <= k ==> s[k - column] == '\n')
    {
      assert s[..k + 1][..k] == s[..k];
      if s[k] == '\n' {
        line, column := line + 1, 1;
      } else {
        column := column + 1;
      }
    }
    var end := offset;
    while end < |s| && s[end] != '\n'
      invariant offset <= end <= |s| && Unbroken(s, offset, end)
    {
      end := end + 1;
    }
    excerpt := TrimRight(TrimLeft(s[offset + 1 - column..end]));
    TrimsBoth(s[offset + 1 - column..end]);
  }

  // ----- appending to a text and its map -----

  method AppendSourceSlice(expanded: string, sourceMap: SourceMap, file: nat, source: string, start: nat, end: nat)
    returns (text: string)
    requires end <= |source|
    modifies sourceMap
    ensures sourceMap.files == old(sourceMap.files)
    ensures sourceMap.With(text) == Sliced(old(sourceMap.With(expanded)), file, source, start, end)
  {
    if start >= end { return expanded; }
    text := expanded + source[start..end];
    sourceMap.PushSegment(|expanded|, |text|, file, start);
  }

  datatype Expanded = Expanded(source: string, sourceMap: SourceMap, rootId: nat)

  ghost predicate NoneEmpty(segments: seq<Segment>) {
    forall i :: 0 <= i < |segments| ==> segments[i].start < segments[i].end
  }

  method AppendExpandedSource(expanded: string, sourceMap: SourceMap, included: Expanded) returns (text: string)
    requires included.sourceMap != sourceMap && NoneEmpty(included.sourceMap.segments)
    modifies sourceMap
    ensures sourceMap.files == old(sourceMap.files) + included.sourceMap.files
    ensures sourceMap.With(text) == Attached(old(sourceMap.With(expanded)), included.sourceMap.With(included.source))
  {
    var base, fileBase := |expanded|, |sourceMap.files|;
    text := expanded + included.source;
    sourceMap.files := sourceMap.files + included.sourceMap.files;
    var inner := included.sourceMap.segments;
    for k := 0 to |inner|
      invariant sourceMap.files == old(sourceMap.files) + included.sourceMap.files
      invariant sourceMap.segments == old(sourceMap.segments) + Shifted(inner[..k], base, fileBase)
    {
      assert inner[..k + 1] == inner[..k] + [inner[k]];
      ShiftedOneMore(inner[..k], inner[k], base, fileBase);
      sourceMap.PushSegment(base + inner[k].start, base + inner[k].end, fileBase + inner[k].file, inner[k].original);
    }
    assert inner[..|inner|] == inner;
  }

  lemma ShiftedOneMore(a: seq<Segment>, s: Segment, offset: nat, base: nat)
    ensures Shifted(a + [s], offset, base) == Shifted(a, offset, base) + [Moved(s, offset, base)]
  {
  }

  // ----- loading -----

  class Loader {
    const world: World
    var nextId: nat
    var active: seq<Origin>

    constructor (w: World)
      ensures world == w && nextId == 0 && active == []
    {
      world, nextId, active := w, 0, [];
    }

    /** Expanding a file: the outcome is the specified one, and the files of a success carry successive numbers. */
    method LoadExpandedSource(origin: Origin, allowNamed: bool) returns (r: Result<Expanded, seq<Problem>>)
      requires Fits(world)
      modifies this
      ensures active == old(active) && nextId >= old(nextId)
      ensures Meets(r, At(world, world.resolve(origin), active, allowNamed))
      ensures r.Ok? ==> fresh(r.value.sourceMap) && Numbered(r.value, old(nextId), nextId)
      decreases Free(world, active), 0
    {
      hide Splice, ByStart, Fits, Free, SourceMap.With;
      var resolved := world.resolve(origin);
      var key := world.key(resolved);
      if key in active { return Err([Recursive(resolved)]); }
      active := active + [key];
      r := ReadExpandSource(resolved, allowNamed, old(active));
      active := active[..|active| - 1];
    }

    ghost predicate Numbered(e: Expanded, first: nat, next: nat)
      reads e.sourceMap
    {
      NumberedFrom(e.sourceMap.files, first) && next == first + |e.sourceMap.files| && e.rootId == first
    }

    ghost predicate Meets(r: Result<Expanded, seq<Problem>>, expected: Outcome)
      reads if r.Ok? then {r.value.sourceMap} else {}
    {
      match r
      case Ok(e) => expected == Ok(e.sourceMap.With(e.source))
      case Err(problems) => expected == Err(problems)
    }

    method ReadExpandSource(o: Origin, allowNamed: bool, ghost outer: seq<Origin>)
      returns (r: Result<Expanded, seq<Problem>>)
      requires Fits(world) && active == outer + [world.key(o)] && world.key(o) !in outer
      modifies this
      ensures active == old(active) && nextId >= old(nextId)
      ensures Meets(r, At(world, o, outer, allowNamed))
      ensures r.Ok? ==> fresh(r.value.sourceMap) && Numbered(r.value, old(nextId), nextId)
      decreases Free(world, outer), 0, 0
    {
      if o !in world.files { return Err([Unreadable(o)]); }
      var id, source := nextId, world.files[o];
      nextId := nextId + 1;
      var p := world.parse(source);
      if p.None? { return Err([Unparsable(o)]); }
      if !allowNamed && p.value.named.Some? { return Err([NamedFragment(o)]); }
      var sourceMap := new SourceMap();
      var file := sourceMap.AddFile(id, o, source);
      FreeShrinks(world, outer, world.key(o));
      WithinSorted(p.value.includes, |source|);
      r := ExpandSourceIncludes(o, id, p.value, sourceMap);
    }

    method ExpandSourceIncludes(o: Origin, id: nat, program: Program, sourceMap: SourceMap)
      returns (r: Result<Expanded, seq<Problem>>)
      requires Fits(world) && o in world.files && Within(ByStart(program.includes), |world.files[o]|)
      requires sourceMap.files == [Stored(id, o, world.files[o])] && sourceMap.segments == [] && nextId == id + 1
      modifies this, sourceMap
      ensures active == old(active) && nextId >= old(nextId)
      ensures Meets(r, Splice(world, o, ByStart(program.includes), active, Draft("", [File(o, world.files[o])], []), [], 0))
      ensures r.Ok? ==> r.value.sourceMap == sourceMap && Numbered(r.value, id, nextId)
      decreases Free(world, active), 3
    {
      hide At, Advanced, Complaints, ByStart, Fits, Free;
      var source := world.files[o];
      ghost var start := sourceMap.With("");
      assert start == Draft("", [File(o, source)], []);
      if program.includes == [] {
        var text := AppendSourceSlice("", sourceMap, 0, source, 0, |source|);
        return Ok(Expanded(text, sourceMap, id));
      }
      var includes := ByStart(program.includes);
      var expanded: string, cursor: nat, problems: seq<Problem> := "", 0, [];
      for k := 0 to |includes|
        invariant active == old(active) && nextId >= old(nextId) && Within(includes, |source|)
        invariant problems == [] ==> NumberedFrom(sourceMap.files, id) && nextId == id + |sourceMap.files|
        invariant Splice(world, o, includes, active, start, [], 0)
               == Splice(world, o, includes[k..], active, sourceMap.With(expanded), problems, cursor)
      {
        var item := includes[k];
        assert includes[k..][0] == item && includes[k..][1..] == includes[k + 1..];
        expanded, problems := ExpandOne(o, id, item, sourceMap, expanded, problems, cursor);
        cursor := item.end;
      }
      expanded := AppendSourceSlice(expanded, sourceMap, 0, source, cursor, |source|);
      if problems == [] {
        r := Ok(Expanded(expanded, sourceMap, id));
      } else {
        r := Err(problems);
      }
    }

    /** The text up to one INCLUDE item and the item itself. */
    method ExpandOne(o: Origin, ghost id: nat, item: Include, sourceMap: SourceMap, before: string,
        reported: seq<Problem>, cursor: nat)
      returns (expanded: string, problems: seq<Problem>)
      requires Fits(world) && o in world.files && item.start <= item.end <= |world.files[o]|
      requires reported == [] ==> NumberedFrom(sourceMap.files, id) && nextId == id + |sourceMap.files|
      modifies this, sourceMap
      ensures active == old(active) && nextId >= old(nextId)
      ensures sourceMap.With(expanded) == Advanced(world, o, item, active, old(sourceMap.With(before)), cursor)
      ensures problems == reported + Complaints(world, o, item, active)
      ensures problems == [] ==> NumberedFrom(sourceMap.files, id) && nextId == id + |sourceMap.files|
      decreases Free(world, active), 2
    {
      hide At, Splice, NeedsBreak, Fits, Genuine;
      var source := world.files[o];
      expanded := AppendSourceSlice(before, sourceMap, 0, source, cursor, item.start);
      var target := world.target(o, item.path);
      if target.None? {
        problems := reported + [BadPath(o, item.path)];
      } else {
        var included := LoadExpandedSource(target.value, false);
        match included {
          case Ok(e) =>
            SegmentsExist(world, world.resolve(target.value), active);
            expanded := AppendExpandedSource(expanded, sourceMap, e);
            if NeedsBreak(expanded, source, item.end) { expanded := expanded + "\n"; }
            problems := reported;
          case Err(more) =>
            ErrorsExist(world, world.resolve(target.value), active, false);
            problems := reported + more;
        }
      }
    }
  }

  lemma SegmentsExist(w: World, o: Origin, active: seq<Origin>)
    requires Fits(w)
    ensures var r := At(w, o, active, false); r.Ok? ==> NoneEmpty(r.value.segments)
  {
    hide At;
    ExpansionExact(w, o, active, false);
    var r := At(w, o, active, false);
    if r.Ok? {
      forall i | 0 <= i < |r.value.segments|
        ensures r.value.segments[i].start < r.value.segments[i].end
      {
        assert Mapped(r.value.segments[i], r.value.text, r.value.files);
      }
    }
  }
}
