/**
 * The embedded source image: line ends made uniform, sources put in order, and a digest over length-prefixed fields.
 */
module EmbeddedImage {
  import opened Wrappers
  import opened Isa

  const CR: byte := 13
  const LF: byte := 10

  // ----- line ends -----

  predicate PairAt(b: seq<byte>, i: int) { 0 <= i < |b| - 1 && b[i] == CR && b[i + 1] == LF }

  /** A carriage return before a line feed disappears. */
  function Normalized(b: seq<byte>): seq<byte> {
    if b == [] then []
    else if PairAt(b, 0) then [LF] + Normalized(b[2..])
    else [b[0]] + Normalized(b[1..])
  }

  ghost predicate HasPair(b: seq<byte>) { exists i :: PairAt(b, i) }

  method NormalizeCrLf(bytes: seq<byte>) returns (normalized: seq<byte>)
    ensures normalized == Normalized(bytes)
  {
    hide Normalized;
    var found := false;
    for i := 0 to |bytes|
      invariant !found ==> forall j :: 0 <= j < i ==> !PairAt(bytes, j)
    {
      if PairAt(bytes, i) { found := true; }
    }
    if !found {
      PairFreeUnchanged(bytes);
      return bytes;
    }
    normalized := [];
    var index := 0;
    assert bytes[0..] == bytes;
    while index < |bytes|
      invariant index <= |bytes|
      invariant normalized + Normalized(bytes[index..]) == Normalized(bytes)
    {
      NormalizedAt(bytes, index);
      if PairAt(bytes, index) {
        normalized := normalized + [LF];
        index := index + 2;
      } else {
        normalized := normalized + [bytes[index]];
        index := index + 1;
      }
    }
    assert bytes[|bytes|..] == [];
    NormalizedNothing();
  }

  lemma NormalizedAt(b: seq<byte>, i: nat)
    requires i < |b|
    ensures Normalized(b[i..])
      == if PairAt(b, i) then [LF] + Normalized(b[i + 2..]) else [b[i]] + Normalized(b[i + 1..])
  {
    assert PairAt(b[i..], 0) <==> PairAt(b, i);
    assert b[i..][1..] == b[i + 1..];
    assert PairAt(b, i) ==> b[i..][2..] == b[i + 2..];
  }

  lemma NormalizedNothing()
    ensures Normalized([]) == []
  {
  }

  lemma {:induction false} PairFreeUnchanged(b: seq<byte>)
    requires forall j :: 0 <= j < |b| ==> !PairAt(b, j)
    ensures Normalized(b) == b
  {
    if b != [] {
      assert !PairAt(b, 0);
      var c := b[1..];
      forall j | 0 <= j < |c| ensures !PairAt(c, j) { assert !PairAt(b, j + 1); }
      PairFreeUnchanged(c);
    }
  }

  lemma {:induction false} NormalizedShorter(b: seq<byte>)
    ensures |Normalized(b)| <= |b| && (HasPair(b) ==> |Normalized(b)| < |b|)
  {
    if b != [] {
      if PairAt(b, 0) {
        NormalizedShorter(b[2..]);
      } else {
        NormalizedShorter(b[1..]);
        if i :| PairAt(b, i) { assert PairAt(b[1..], i - 1); }
      }
    }
  }

  /** Exactly the texts without such a pair stay as they are. */
  lemma UnchangedExactly(b: seq<byte>)
    ensures Normalized(b) == b <==> !HasPair(b)
  {
    NormalizedShorter(b);
    if !HasPair(b) { PairFreeUnchanged(b); }
  }

  /** What a checkout that ends lines with CR LF makes of a text. */
  function CheckedOut(b: seq<byte>): seq<byte> {
    if b == [] then [] else (if b[0] == 10 then [13, 10] else [b[0]]) + CheckedOut(b[1..])
  }

  /** Normalizing undoes that, whatever the text. */
  lemma {:induction false} NormalizedUndoes(b: seq<byte>)
    ensures Normalized(CheckedOut(b)) == b
  {
    if b != [] {
      NormalizedUndoes(b[1..]);
      var c := CheckedOut(b);
      var rest := CheckedOut(b[1..]);
      if b[0] == LF {
        assert c[2..] == rest && PairAt(c, 0);
      } else {
        assert c[1..] == rest;
        NoFeedFirst(b[1..]);
        assert !PairAt(c, 0);
      }
    }
  }

  lemma NoFeedFirst(b: seq<byte>)
    ensures CheckedOut(b) != [] ==> CheckedOut(b)[0] != LF
  {
  }

  predicate TripleAt(b: seq<byte>, i: int) { 0 <= i < |b| - 2 && b[i] == 13 && b[i + 1] == 13 && b[i + 2] == 10 }

  ghost predicate HasTriple(b: seq<byte>) { exists i :: TripleAt(b, i) }

  lemma {:induction false} PairLeft(b: seq<byte>)
    ensures HasPair(Normalized(b)) <==> HasTriple(b)
  {
    var n := Normalized(b);
    if b != [] {
      if PairAt(b, 0) {
        var c := b[2..];
        PairLeft(c);
        AfterFirst(n, Normalized(c));
        if i :| TripleAt(b, i) { assert TripleAt(c, i - 2); }
        if i :| TripleAt(c, i) { assert TripleAt(b, i + 2); }
      } else {
        var c := b[1..];
        PairLeft(c);
        FirstOf(c);
        assert PairAt(n, 0) <==> TripleAt(b, 0);
        AfterFirst(n, Normalized(c));
        if i :| TripleAt(b, i) && i > 0 { assert TripleAt(c, i - 1); }
        if i :| TripleAt(c, i) { assert TripleAt(b, i + 1); }
      }
    }
  }

  lemma AfterFirst(n: seq<byte>, rest: seq<byte>)
    requires n != [] && n[1..] == rest
    ensures HasPair(n) <==> PairAt(n, 0) || HasPair(rest)
  {
    if i :| PairAt(n, i) && i > 0 { assert PairAt(rest, i - 1); }
    if i :| PairAt(rest, i) { assert PairAt(n, i + 1); }
  }

  lemma FirstOf(b: seq<byte>)
    ensures Normalized(b) == [] <==> b == []
    ensures b != [] ==> (Normalized(b)[0] == LF <==> b[0] == LF || PairAt(b, 0))
  {
  }

  /** Normalizing twice is normalizing once exactly for the texts without CR CR LF. */
  lemma IdempotentExactly(b: seq<byte>)
    ensures Normalized(Normalized(b)) == Normalized(b) <==> !HasTriple(b)
  {
    UnchangedExactly(Normalized(b));
    PairLeft(b);
  }

  lemma NotIdempotent()
    ensures Normalized([CR, CR, LF]) == [CR, LF] && Normalized([CR, LF]) == [LF]
  {
    var b: seq<byte>, c: seq<byte> := [CR, CR, LF], [CR, LF];
    assert b[1..] == c && c[2..] == [] && PairAt(c, 0) && !PairAt(b, 0);
    assert Normalized(c) == [LF] + Normalized(c[2..]);
  }

  // ----- fields -----

  const MAX_LENGTH: nat := 0x1_0000_0000_0000_0000

  function LittleEndian(n: nat, width: nat): (r: seq<byte>)
    ensures |r| == width
  {
    if width == 0 then [] else [n % 256] + LittleEndian(n / 256, width - 1)
  }

  function ValueOf(b: seq<byte>): nat { if b == [] then 0 else b[0] + 256 * ValueOf(b[1..]) }

  function Power(k: nat): nat { if k == 0 then 1 else 256 * Power(k - 1) }

  lemma {:induction false} LittleEndianValue(n: nat, width: nat)
    requires n < Power(width)
    ensures ValueOf(LittleEndian(n, width)) == n
  {
    if width > 0 {
      LittleEndianValue(n / 256, width - 1);
      assert LittleEndian(n, width)[1..] == LittleEndian(n / 256, width - 1);
    }
  }

  lemma {:induction false} ValueLittleEndian(b: seq<byte>)
    ensures ValueOf(b) < Power(|b|) && LittleEndian(ValueOf(b), |b|) == b
  {
    if b != [] {
      ValueLittleEndian(b[1..]);
      var v, first := ValueOf(b[1..]), b[0] as int;
      assert (first + 256 * v) % 256 == first && (first + 256 * v) / 256 == v;
      assert b == [b[0]] + b[1..];
    }
  }

  lemma EightBytes()
    ensures Power(8) == MAX_LENGTH
  {
    assert Power(1) == 0x100;
    assert Power(2) == 0x1_0000;
    assert Power(3) == 0x100_0000;
    assert Power(4) == 0x1_0000_0000;
    assert Power(5) == 0x100_0000_0000;
    assert Power(6) == 0x1_0000_0000_0000;
    assert Power(7) == 0x100_0000_0000_0000;
  }

  function Field(f: seq<byte>): seq<byte> { LittleEndian(|f|, 8) + f }

  method AppendField(output: seq<byte>, field: seq<byte>) returns (longer: seq<byte>)
    ensures longer == output + Field(field)
  {
    longer := output + LittleEndian(|field|, 8);
    longer := longer + field;
  }

  function Fields(fs: seq<seq<byte>>): seq<byte> { if fs == [] then [] else Field(fs[0]) + Fields(fs[1..]) }

  /** The fields in a byte string, if it is made of whole fields. */
  function Split(b: seq<byte>): Option<seq<seq<byte>>>
    decreases |b|
  {
    if b == [] then Some([])
    else if |b| < 8 || |b| - 8 < ValueOf(b[..8]) then None
    else
      var n := ValueOf(b[..8]);
      var rest := Split(b[8 + n..]);
      if rest.None? then None else Some([b[8..8 + n]] + rest.value)
  }

  ghost predicate Short(fs: seq<seq<byte>>) { forall i :: 0 <= i < |fs| ==> |fs[i]| < MAX_LENGTH }

  lemma SplitField(f: seq<byte>, rest: seq<byte>)
    requires |f| < MAX_LENGTH
    ensures var b := Field(f) + rest;
      b != [] && |b| >= 8 + |f| && ValueOf(b[..8]) == |f| && b[8..8 + |f|] == f && b[8 + |f|..] == rest
  {
    EightBytes();
    LittleEndianValue(|f|, 8);
    var b := Field(f) + rest;
    assert b[..8] == LittleEndian(|f|, 8);
  }

  /** Fields are uniquely decodable: splitting gives them back ... */
  lemma {:induction false} FieldsSplit(fs: seq<seq<byte>>)
    requires Short(fs)
    ensures Split(Fields(fs)) == Some(fs)
    decreases |fs|
  {
    if fs != [] {
      hide ValueOf, LittleEndian;
      FieldsSplit(fs[1..]);
      SplitField(fs[0], Fields(fs[1..]));
      assert fs == [fs[0]] + fs[1..];
    }
  }

  /** ... and whatever splits is the fields it splits into, written down. */
  lemma {:induction false} SplitFields(b: seq<byte>)
    requires Split(b).Some?
    ensures Fields(Split(b).value) == b && Short(Split(b).value)
    decreases |b|
  {
    hide ValueOf, LittleEndian, Field;
    if b != [] {
      var n := ValueOf(b[..8]);
      var first, rest := b[8..8 + n], b[8 + n..];
      SplitFields(rest);
      FieldRead(b);
      var fs := Split(b).value;
      assert fs[0] == first && fs[1..] == Split(rest).value;
      assert Short(fs) by {
        forall i | 0 <= i < |fs| ensures |fs[i]| < MAX_LENGTH { if i > 0 { assert fs[i] == fs[1..][i - 1]; } }
      }
    }
  }

  lemma FieldRead(b: seq<byte>)
    requires |b| >= 8 && 8 + ValueOf(b[..8]) <= |b|
    ensures var n := ValueOf(b[..8]); n < MAX_LENGTH && b == Field(b[8..8 + n]) + b[8 + n..]
  {
    hide ValueOf, LittleEndian;
    ValueLittleEndian(b[..8]);
    EightBytes();
  }

  // ----- order -----

  predicate AtMost(a: seq<byte>, b: seq<byte>) {
    a == [] || (b != [] && (a[0] < b[0] || (a[0] == b[0] && AtMost(a[1..], b[1..]))))
  }

  lemma {:induction false} AtMostTotal(a: seq<byte>, b: seq<byte>)
    ensures AtMost(a, b) || AtMost(b, a)
    ensures AtMost(a, b) && AtMost(b, a) ==> a == b
  {
    if a != [] && b != [] {
      AtMostTotal(a[1..], b[1..]);
      assert a == [a[0]] + a[1..] && b == [b[0]] + b[1..];
    }
  }

  lemma {:induction false} AtMostTransitive(a: seq<byte>, b: seq<byte>, c: seq<byte>)
    requires AtMost(a, b) && AtMost(b, c)
    ensures AtMost(a, c)
  {
    if a != [] && a[0] == b[0] && b[0] == c[0] { AtMostTransitive(a[1..], b[1..], c[1..]); }
  }

  datatype Source = Source(kind: seq<byte>, key: seq<byte>, path: seq<byte>, display: seq<byte>, bytes: seq<byte>)

  function Inserted(x: Source, sorted: seq<Source>): seq<Source> {
    if sorted == [] || AtMost(sorted[|sorted| - 1].key, x.key) then sorted + [x]
    else Inserted(x, sorted[..|sorted| - 1]) + [sorted[|sorted| - 1]]
  }

  /** Sources by key; those with the same key keep their order. */
  function ByKey(s: seq<Source>): seq<Source> { if s == [] then [] else Inserted(s[|s| - 1], ByKey(s[..|s| - 1])) }

  ghost predicate Ascending(s: seq<Source>) { forall i, j :: 0 <= i < j < |s| ==> AtMost(s[i].key, s[j].key) }

  /** Sources with the same key are the same. */
  ghost predicate KeysTell(s: seq<Source>) {
    forall i, j :: 0 <= i < |s| && 0 <= j < |s| && s[i].key == s[j].key ==> s[i] == s[j]
  }

  lemma {:induction false} InsertedIs(x: Source, s: seq<Source>)
    requires Ascending(s)
    ensures Ascending(Inserted(x, s)) && multiset(Inserted(x, s)) == multiset(s + [x])
  {
    if s != [] {
      var init, last := s[..|s| - 1], s[|s| - 1];
      assert s == init + [last];
      AtMostTotal(last.key, x.key);
      if AtMost(last.key, x.key) {
        forall i | 0 <= i < |s| ensures AtMost(s[i].key, x.key) {
          if i < |s| - 1 { AtMostTransitive(s[i].key, last.key, x.key); }
        }
      } else {
        InsertedIs(x, init);
        hide Inserted;
        BelowLast(x, init, last, Inserted(x, init));
      }
    }
  }

  lemma BelowLast(x: Source, init: seq<Source>, last: Source, r: seq<Source>)
    requires Ascending(init + [last]) && AtMost(x.key, last.key) && multiset(r) == multiset(init + [x])
    ensures forall i :: 0 <= i < |r| ==> AtMost(r[i].key, last.key)
  {
    forall i | 0 <= i < |r|
      ensures AtMost(r[i].key, last.key)
    {
      assert r[i] in multiset(r);
      var j :| 0 <= j < |init + [x]| && (init + [x])[j] == r[i];
      assert j < |init| ==> AtMost((init + [last])[j].key, (init + [last])[|init|].key);
    }
  }

  lemma {:induction false} ByKeySorts(s: seq<Source>)
    ensures Ascending(ByKey(s)) && multiset(ByKey(s)) == multiset(s)
  {
    if s != [] {
      var init := s[..|s| - 1];
      assert s == init + [s[|s| - 1]];
      ByKeySorts(init);
      InsertedIs(s[|s| - 1], ByKey(init));
    }
  }

  lemma KeyOnce(s: seq<Source>, x: Source, y: Source)
    requires KeysTell(s) && x in s && y in s && x.key == y.key
    ensures x == y
  {
  }

  /** Two ascending arrangements of the same sources are the same when keys tell sources apart. */
  lemma {:induction false} OneArrangement(a: seq<Source>, b: seq<Source>, all: seq<Source>)
    requires Ascending(a) && Ascending(b) && multiset(a) == multiset(b) && KeysTell(all) && forall x :: x in a ==>
      x in all
    ensures a == b
    decreases |a|
  {
    assert |a| == |multiset(a)| == |multiset(b)| == |b|;
    if a != [] {
      var x, y := a[0], b[0];
      FirstIsLeast(a, b);
      FirstIsLeast(b, a);
      AtMostTotal(x.key, y.key);
      assert x in all by { assert x in a; }
      assert y in all by { assert y in multiset(a) && y in a; }
      KeyOnce(all, x, y);
      RestIsSame(a, b);
      hide KeysTell, AtMost;
      assert forall z :: z in a[1..] ==> z in a;
      OneArrangement(a[1..], b[1..], all);
      assert a == [x] + a[1..] && b == [x] + b[1..];
    }
  }

  lemma FirstIsLeast(a: seq<Source>, b: seq<Source>)
    requires Ascending(a) && multiset(a) == multiset(b) && a != [] && b != []
    ensures AtMost(a[0].key, b[0].key) && b[0] in multiset(a)
  {
    assert b[0] in multiset(b);
    var i :| 0 <= i < |a| && a[i] == b[0];
    AtMostTotal(a[0].key, a[0].key);
    assert i > 0 ==> AtMost(a[0].key, a[i].key);
  }

  lemma RestIsSame(a: seq<Source>, b: seq<Source>)
    requires a != [] && b != [] && a[0] == b[0] && multiset(a) == multiset(b)
    ensures multiset(a[1..]) == multiset(b[1..])
  {
    assert a == [a[0]] + a[1..] && b == [a[0]] + b[1..];
    assert multiset(a[1..]) == multiset(a) - multiset{a[0]} && multiset(b[1..]) == multiset(b) - multiset{a[0]};
  }

  // ----- the image -----

  function Clean(x: Source): Source { x.(bytes := Normalized(x.bytes)) }

  function Mapped(f: Source -> Source, s: seq<Source>): (r: seq<Source>)
    ensures |r| == |s| && forall i :: 0 <= i < |r| ==> r[i] == f(s[i])
  {
    seq(|s|, i requires 0 <= i < |s| => f(s[i]))
  }

  type Digest = seq<byte> -> seq<byte>

  /** The four fields of every source, one source after the other. */
  function ManifestFields(sources: seq<Source>, digest: Digest): seq<seq<byte>> {
    if sources == [] then []
    else
      var last := sources[|sources| - 1];
      ManifestFields(sources[..|sources| - 1], digest) + [last.kind, last.key, last.path, digest(last.bytes)]
  }

  datatype Prepared = Prepared(source: Source, digest: seq<byte>)

  datatype Image = Image(sources: seq<Prepared>, digest: seq<byte>)

  function Digested(sources: seq<Source>, digest: Digest): (r: seq<Prepared>)
    ensures |r| == |sources| && forall i :: 0 <= i < |r| ==> r[i] == Prepared(sources[i], digest(sources[i].bytes))
  {
    seq(|sources|, i requires 0 <= i < |sources| => Prepared(sources[i], digest(sources[i].bytes)))
  }

  function Sealed(sources: seq<Source>, digest: Digest): Image {
    Image(Digested(sources, digest), digest(Fields(ManifestFields(sources, digest))))
  }

  function ImageOf(inputs: seq<Source>, digest: Digest): Image { Sealed(ByKey(Mapped(Clean, inputs)), digest) }

  method PrepareImage(inputs: seq<Source>, digest: Digest) returns (image: Image)
    ensures image == ImageOf(inputs, digest)
  {
    var cleaned := inputs;
    for k := 0 to |inputs|
      invariant |cleaned| == |inputs|
      invariant forall i :: 0 <= i < |inputs| ==> cleaned[i] == if i < k then Clean(inputs[i]) else inputs[i]
    {
      var bytes := NormalizeCrLf(cleaned[k].bytes);
      cleaned := cleaned[k := cleaned[k].(bytes := bytes)];
    }
    assert cleaned == Mapped(Clean, inputs);
    var sorted := ByKey(cleaned);
    var sources: seq<Prepared> := [];
    for k := 0 to |sorted|
      invariant sources == Digested(sorted[..k], digest)
    {
      sources := sources + [Prepared(sorted[k], digest(sorted[k].bytes))];
    }
    assert sorted[..|sorted|] == sorted;
    var manifest: seq<byte> := [];
    for k := 0 to |sources|
      invariant sources == Digested(sorted, digest)
      invariant manifest == Fields(ManifestFields(sorted[..k], digest))
    {
      var x := sources[k];
      ghost var before := ManifestFields(sorted[..k], digest);
      FieldsOfFour(before, x.source.kind, x.source.key, x.source.path, x.digest);
      manifest := AppendField(manifest, x.source.kind);
      manifest := AppendField(manifest, x.source.key);
      manifest := AppendField(manifest, x.source.path);
      manifest := AppendField(manifest, x.digest);
      assert sorted[..k + 1][..k] == sorted[..k];
    }
    image := Image(sources, digest(manifest));
  }

  lemma {:induction false} FieldsAppend(a: seq<seq<byte>>, f: seq<byte>)
    ensures Fields(a + [f]) == Fields(a) + Field(f)
    decreases |a|
  {
    hide Field;
    if a == [] {
      assert a + [f] == [f] && [f][1..] == [];
      assert Fields([f]) == Field(f) + [];
    } else {
      assert (a + [f])[1..] == a[1..] + [f];
      FieldsAppend(a[1..], f);
    }
  }

  lemma FieldsOfFour(a: seq<seq<byte>>, p: seq<byte>, q: seq<byte>, r: seq<byte>, s: seq<byte>)
    ensures Fields(a + [p, q, r, s]) == Fields(a) + Field(p) + Field(q) + Field(r) + Field(s)
  {
    hide Fields, Field;
    FieldsAppend(a, p);
    FieldsAppend(a + [p], q);
    FieldsAppend(a + [p] + [q], r);
    FieldsAppend(a + [p] + [q] + [r], s);
    assert a + [p, q, r, s] == a + [p] + [q] + [r] + [s];
  }

  lemma {:induction false} MappedPermutes(f: Source -> Source, a: seq<Source>, b: seq<Source>)
    requires multiset(a) == multiset(b)
    ensures multiset(Mapped(f, a)) == multiset(Mapped(f, b))
    decreases |a|
  {
    assert |a| == |multiset(a)| == |multiset(b)| == |b|;
    if a != [] {
      var last, x := |a| - 1, a[|a| - 1];
      assert x in multiset(a) && x in multiset(b);
      var k :| 0 <= k < |b| && b[k] == x;
      Without(a, last);
      Without(b, k);
      MappedWithout(f, a, last);
      MappedWithout(f, b, k);
      hide Mapped, Removed;
      Cancel(multiset(Removed(a, last)), multiset(Removed(b, k)), x);
      MappedPermutes(f, Removed(a, last), Removed(b, k));
    } else {
      assert b == [];
    }
  }

  lemma Cancel<T>(a: multiset<T>, b: multiset<T>, x: T)
    requires a + multiset{x} == b + multiset{x}
    ensures a == b
  {
    assert a == a + multiset{x} - multiset{x} && b == b + multiset{x} - multiset{x};
  }

  function Removed(s: seq<Source>, k: nat): (r: seq<Source>)
    requires k < |s|
    ensures |r| == |s| - 1
  {
    s[..k] + s[k + 1..]
  }

  lemma Without(s: seq<Source>, k: nat)
    requires k < |s|
    ensures multiset(s) == multiset(Removed(s, k)) + multiset{s[k]}
  {
    assert s == s[..k] + [s[k]] + s[k + 1..];
  }

  lemma MappedWithout(f: Source -> Source, s: seq<Source>, k: nat)
    requires k < |s|
    ensures multiset(Mapped(f, s)) == multiset(Mapped(f, Removed(s, k))) + multiset{f(s[k])}
  {
    var m := Mapped(f, s);
    Without(m, k);
    assert Removed(m, k) == Mapped(f, Removed(s, k));
  }

  lemma SameOrder(a: seq<Source>, b: seq<Source>)
    requires multiset(a) == multiset(b) && KeysTell(a)
    ensures ByKey(a) == ByKey(b)
  {
    ByKeySorts(a);
    ByKeySorts(b);
    hide ByKey, KeysTell, Ascending;
    forall x | x in ByKey(a) ensures x in a { assert x in multiset(ByKey(a)); }
    OneArrangement(ByKey(a), ByKey(b), a);
  }

  // ----- sources with the same key keep their order -----

  function WithKey(s: seq<Source>, key: seq<byte>): seq<Source> {
    if s == [] then [] else WithKey(s[..|s| - 1], key) + if s[|s| - 1].key == key then [s[|s| - 1]] else []
  }

  lemma WithKeySnoc(s: seq<Source>, x: Source, key: seq<byte>)
    ensures WithKey(s + [x], key) == WithKey(s, key) + if x.key == key then [x] else []
  {
    assert (s + [x])[..|s|] == s;
  }

  lemma {:induction false} InsertedStable(x: Source, s: seq<Source>, key: seq<byte>)
    ensures WithKey(Inserted(x, s), key) == WithKey(s + [x], key)
  {
    if s != [] && !AtMost(s[|s| - 1].key, x.key) {
      var init, last := s[..|s| - 1], s[|s| - 1];
      assert s == init + [last];
      AtMostTotal(x.key, x.key);
      InsertedStable(x, init, key);
      WithKeySnoc(Inserted(x, init), last, key);
      WithKeySnoc(init, x, key);
      WithKeySnoc(init, last, key);
      WithKeySnoc(s, x, key);
    }
  }

  /** Sorting leaves the sources of each key in the order they came in. */
  lemma {:induction false} ByKeyStable(s: seq<Source>, key: seq<byte>)
    ensures WithKey(ByKey(s), key) == WithKey(s, key)
  {
    if s != [] {
      var init, last := s[..|s| - 1], s[|s| - 1];
      assert s == init + [last];
      ByKeyStable(init, key);
      InsertedStable(last, ByKey(init), key);
      WithKeySnoc(ByKey(init), last, key);
      WithKeySnoc(init, last, key);
    }
  }

  /** The place of a source among those with its key. */
  lemma {:induction false} WithKeyAt(s: seq<Source>, i: nat)
    requires i < |s|
    ensures var p, w := |WithKey(s[..i], s[i].key)|, WithKey(s, s[i].key); p < |w| && w[p] == s[i]
  {
    var init := s[..|s| - 1];
    if i < |init| {
      WithKeyAt(init, i);
      assert init[..i] == s[..i];
    } else {
      assert s[..i] == init;
    }
  }

  function Swapped(s: seq<Source>, i: nat, j: nat): (r: seq<Source>)
    requires i < j < |s|
    ensures |r| == |s|
  {
    s[i := s[j]][j := s[i]]
  }

  lemma SwappedPermutes(s: seq<Source>, i: nat, j: nat)
    requires i < j < |s|
    ensures multiset(Swapped(s, i, j)) == multiset(s)
  {
  }

  /** Exchanging two different sources with the same key shows in the order. */
  lemma SwapShows(s: seq<Source>, i: nat, j: nat)
    requires i < j < |s| && s[i].key == s[j].key && s[i] != s[j]
    ensures ByKey(Swapped(s, i, j)) != ByKey(s)
  {
    var t, key := Swapped(s, i, j), s[i].key;
    ByKeyStable(s, key);
    ByKeyStable(t, key);
    WithKeyAt(s, i);
    WithKeyAt(t, i);
    assert t[..i] == s[..i];
  }

  // ----- the order of the inputs -----

  lemma ImagesTell(a: seq<Source>, b: seq<Source>, digest: Digest)
    requires ImageOf(a, digest) == ImageOf(b, digest)
    ensures ByKey(Mapped(Clean, a)) == ByKey(Mapped(Clean, b))
  {
    SealedTells(ByKey(Mapped(Clean, a)), ByKey(Mapped(Clean, b)), digest);
  }

  lemma SealedTells(c: seq<Source>, d: seq<Source>, digest: Digest)
    requires Sealed(c, digest) == Sealed(d, digest)
    ensures c == d
  {
    hide ManifestFields, Fields;
    assert |c| == |Sealed(c, digest).sources| == |Sealed(d, digest).sources| == |d|;
    forall i | 0 <= i < |c|
      ensures c[i] == d[i]
    {
      assert Digested(c, digest)[i].source == c[i] && Digested(d, digest)[i].source == d[i];
    }
  }

  /** Different sources with the same key: exchanging them changes the image. */
  lemma OrderShows(a: seq<Source>, i: nat, j: nat, digest: Digest) returns (b: seq<Source>)
    requires i < j < |a| && a[i].key == a[j].key && Clean(a[i]) != Clean(a[j])
    ensures multiset(b) == multiset(a) && ImageOf(b, digest) != ImageOf(a, digest)
  {
    hide Sealed, ByKey;
    b := Swapped(a, i, j);
    SwappedPermutes(a, i, j);
    var c := Mapped(Clean, a);
    assert Mapped(Clean, b) == Swapped(c, i, j);
    SwapShows(c, i, j);
    if ImageOf(b, digest) == ImageOf(a, digest) { ImagesTell(b, a, digest); }
  }

  lemma OrderHides(a: seq<Source>, b: seq<Source>, digest: Digest)
    requires multiset(b) == multiset(a)
    requires forall i, j :: 0 <= i < |a| && 0 <= j < |a| && a[i].key == a[j].key ==> Clean(a[i]) == Clean(a[j])
    ensures ImageOf(b, digest) == ImageOf(a, digest)
  {
    hide Sealed, ByKey;
    MappedPermutes(Clean, a, b);
    SameOrder(Mapped(Clean, a), Mapped(Clean, b));
  }

  /**
   * The image does not depend on the order of its inputs if and only if inputs with the same key are the same once
   * their line ends are.
   */
  lemma OrderExactly(a: seq<Source>, digest: Digest)
    ensures (forall b :: multiset(b) == multiset(a) ==> ImageOf(b, digest) == ImageOf(a, digest))
      <==> forall i, j :: 0 <= i < |a| && 0 <= j < |a| && a[i].key == a[j].key ==> Clean(a[i]) == Clean(a[j])
  {
    hide ImageOf, Clean;
    forall i, j | 0 <= i < j < |a| && a[i].key == a[j].key && Clean(a[i]) != Clean(a[j])
      ensures exists b :: multiset(b) == multiset(a) && ImageOf(b, digest) != ImageOf(a, digest)
    {
      var b := OrderShows(a, i, j, digest);
    }
    if forall i, j :: 0 <= i < |a| && 0 <= j < |a| && a[i].key == a[j].key ==> Clean(a[i]) == Clean(a[j]) {
      forall b | multiset(b) == multiset(a)
        ensures ImageOf(b, digest) == ImageOf(a, digest)
      {
        OrderHides(a, b, digest);
      }
    }
  }

  /** Equal manifests list the same kinds, keys, paths and digests, source by source. */
  lemma {:induction false} FieldsTell(a: seq<Source>, b: seq<Source>, digest: Digest)
    requires ManifestFields(a, digest) == ManifestFields(b, digest)
    ensures |a| == |b|
    ensures forall i :: 0 <= i < |a| ==>
      a[i].kind == b[i].kind && a[i].key == b[i].key && a[i].path == b[i].path
        && digest(a[i].bytes) == digest(b[i].bytes)
    decreases |a|
  {
    FieldCount(a, digest);
    FieldCount(b, digest);
    if a != [] {
      var x, y := a[|a| - 1], b[|b| - 1];
      var p, q := ManifestFields(a[..|a| - 1], digest), ManifestFields(b[..|b| - 1], digest);
      FieldCount(a[..|a| - 1], digest);
      FieldCount(b[..|b| - 1], digest);
      LastFour(p, [x.kind, x.key, x.path, digest(x.bytes)], q, [y.kind, y.key, y.path, digest(y.bytes)]);
      FieldsTell(a[..|a| - 1], b[..|b| - 1], digest);
    }
  }

  lemma LastFour(p: seq<seq<byte>>, a: seq<seq<byte>>, q: seq<seq<byte>>, b: seq<seq<byte>>)
    requires p + a == q + b && |p| == |q|
    ensures p == q && a == b
  {
    assert p == (p + a)[..|p|] && a == (p + a)[|p|..];
    assert q == (q + b)[..|q|] && b == (q + b)[|q|..];
  }

  lemma {:induction false} FieldCount(a: seq<Source>, digest: Digest)
    ensures |ManifestFields(a, digest)| == 4 * |a|
  {
    if a != [] { FieldCount(a[..|a| - 1], digest); }
  }

  /** Equal manifest bytes mean equal manifests: only the digests themselves can hide a difference. */
  lemma ManifestTells(a: seq<Source>, b: seq<Source>, digest: Digest)
    requires Short(ManifestFields(a, digest)) && Short(ManifestFields(b, digest))
    requires Fields(ManifestFields(a, digest)) == Fields(ManifestFields(b, digest))
    ensures |a| == |b|
    ensures forall i :: 0 <= i < |a| ==>
      a[i].kind == b[i].kind && a[i].key == b[i].key && a[i].path == b[i].path
        && digest(a[i].bytes) == digest(b[i].bytes)
  {
    hide Fields, ManifestFields, Split;
    FieldsSplit(ManifestFields(a, digest));
    FieldsSplit(ManifestFields(b, digest));
    FieldsTell(a, b, digest);
  }

  function WithCrLf(x: Source): Source { x.(bytes := CheckedOut(x.bytes)) }

  /** A checkout that turns line feeds into CR LF gives the same image exactly when no source contained CR LF before. */
  lemma CheckoutDoesNotMatter(inputs: seq<Source>, digest: Digest)
    ensures ImageOf(Mapped(WithCrLf, inputs), digest) == ImageOf(inputs, digest)
      <==> forall i :: 0 <= i < |inputs| ==> !HasPair(inputs[i].bytes)
  {
    var sorted, crlf := ByKey(inputs), Mapped(WithCrLf, inputs);
    CheckoutUndone(inputs);
    SortedTogether(inputs);
    ByKeySorts(inputs);
    hide ByKey, Clean, Ascending, HasPair, Sealed;
    forall x: Source ensures Clean(x) == x <==> !HasPair(x.bytes) { CleanUnchanged(x); }
    if forall i :: 0 <= i < |inputs| ==> !HasPair(inputs[i].bytes) {
      assert Mapped(Clean, inputs) == inputs;
    }
    if ImageOf(crlf, digest) == ImageOf(inputs, digest) {
      ImagesTell(crlf, inputs, digest);
      forall i | 0 <= i < |inputs|
        ensures Clean(inputs[i]) == inputs[i]
      {
        assert inputs[i] in multiset(sorted);
        var j :| 0 <= j < |sorted| && sorted[j] == inputs[i];
        assert Mapped(Clean, sorted)[j] == Clean(sorted[j]);
      }
    }
  }

  lemma CleanUnchanged(x: Source)
    ensures Clean(x) == x <==> !HasPair(x.bytes)
  {
    UnchangedExactly(x.bytes);
  }

  lemma CheckoutUndone(inputs: seq<Source>)
    ensures Mapped(Clean, Mapped(WithCrLf, inputs)) == inputs
  {
    forall i | 0 <= i < |inputs|
      ensures Clean(WithCrLf(inputs[i])) == inputs[i]
    {
      NormalizedUndoes(inputs[i].bytes);
    }
  }

  lemma {:induction false} SortedTogether(s: seq<Source>)
    ensures ByKey(Mapped(Clean, s)) == Mapped(Clean, ByKey(s))
  {
    if s != [] {
      var init, x := s[..|s| - 1], s[|s| - 1];
      assert Mapped(Clean, s)[..|s| - 1] == Mapped(Clean, init);
      SortedTogether(init);
      InsertedTogether(x, ByKey(init));
    }
  }

  lemma {:induction false} InsertedTogether(x: Source, s: seq<Source>)
    ensures Inserted(Clean(x), Mapped(Clean, s)) == Mapped(Clean, Inserted(x, s))
  {
    var t := Mapped(Clean, s);
    if s == [] || AtMost(s[|s| - 1].key, x.key) {
      assert Mapped(Clean, s + [x]) == t + [Clean(x)];
    } else {
      var init := s[..|s| - 1];
      assert t[..|t| - 1] == Mapped(Clean, init);
      InsertedTogether(x, init);
    }
  }

  // ----- the order and the fields by place -----

  ghost predicate SameUpto(a: seq<byte>, b: seq<byte>, n: nat)
    requires n <= |a| && n <= |b|
  {
    forall i :: 0 <= i < n ==> a[i] == b[i]
  }

  /** `n` is the first place where the strings differ, and there `a` has the smaller byte or has ended. */
  ghost predicate FirstSmaller(a: seq<byte>, b: seq<byte>, n: nat) {
    n <= |a| && n <= |b| && SameUpto(a, b, n) && (n == |a| || (n < |b| && a[n] < b[n]))
  }

  /** The order of keys is that of a dictionary. */
  lemma {:induction false} AtMostExactly(a: seq<byte>, b: seq<byte>)
    ensures AtMost(a, b) <==> exists n: nat :: FirstSmaller(a, b, n)
  {
    if a == [] {
      assert FirstSmaller(a, b, 0);
    } else if b == [] {
    } else if a[0] != b[0] {
      if n: nat :| FirstSmaller(a, b, n) { assert n == 0; }
      if a[0] < b[0] { assert FirstSmaller(a, b, 0); }
    } else {
      AtMostExactly(a[1..], b[1..]);
      if n: nat :| FirstSmaller(a[1..], b[1..], n) {
        forall i | 0 <= i < n + 1 ensures a[i] == b[i] { if i > 0 { assert a[1..][i - 1] == b[1..][i - 1]; } }
        assert FirstSmaller(a, b, n + 1);
      }
      if n: nat :| FirstSmaller(a, b, n) {
        assert n > 0;
        assert FirstSmaller(a[1..], b[1..], n - 1);
      }
    }
  }

  /** The manifest has four fields for each source: its kind, its key, its path and the digest of its bytes. */
  lemma {:induction false} FieldsPlaced(sources: seq<Source>, digest: Digest, i: nat)
    requires i < |sources|
    ensures var fields := ManifestFields(sources, digest);
      && |fields| == 4 * |sources|
      && fields[4 * i] == sources[i].kind && fields[4 * i + 1] == sources[i].key
      && fields[4 * i + 2] == sources[i].path && fields[4 * i + 3] == digest(sources[i].bytes)
    decreases |sources|
  {
    var n := |sources| - 1;
    if n == 0 {
      assert ManifestFields(sources[..n], digest) == [];
    } else {
      FieldsPlaced(sources[..n], digest, if i < n then i else 0);
    }
  }
}
