/**
 * The report of registers taken in, said through walks; when it is exact for paths, and a block for which it is not.
 */
module AsmTaken {
  import opened Wrappers
  import opened Isa
  import opened AsmGraph
  import opened AsmSweep
  import opened AsmFixpoint
  import opened AsmDepth
  import opened AsmStack
  import opened AsmAnalyze
  import opened AsmReads
  import opened AsmBalance
  import Limits = AsmLimits

  // ----- walks that bring a register to a reader unwritten -----

  ghost predicate Unwritten(g: Graph, w: seq<nat>, r: Register, from: nat, upto: nat) {
    forall k :: from <= k < upto ==> k < |w| && w[k] < |g.prog| && !Has(Writes(g.prog[w[k]].op), r)
  }

  /** A closed walk that nowhere writes the register. */
  ghost predicate SilentCycle(g: Graph, c: seq<nat>, r: Register)
    requires WellFormed(g)
  {
    Walk(g, c) && |c| > 1 && c[0] == c[|c| - 1] && Unwritten(g, c, r, 0, |c|)
  }

  /** Where a register comes from that no instruction on the way has written. */
  ghost predicate Source(g: Graph, w: seq<nat>, r: Register)
    requires WellFormed(g) && w != []
  {
    || (w[0] == 0 && Unwritten(g, w, r, 0, |w| - 1))
    || (w[0] != 0 && Preds(g, w[0]) == [] && |w| > 1 && Unwritten(g, w, r, 1, |w| - 1))
    || (Unwritten(g, w, r, 0, |w| - 1) && exists c :: SilentCycle(g, c, r) && c[0] == w[0])
  }

  /** A walk to a reader from the entry, from an instruction that nothing precedes, or from a cycle that is silent. */
  ghost predicate Carries(g: Graph, w: seq<nat>, r: Register)
    requires WellFormed(g)
  {
    Walk(g, w) && Has(Reads(g.prog[w[|w| - 1]].op), r) && Source(g, w, r)
  }

  // ----- from a walk to a supported set -----

  function Members(w: seq<nat>): set<nat> { set x | x in w }

  lemma StepLeads(g: Graph, w: seq<nat>, s: set<nat>, k: nat)
    requires WellFormed(g) && Walk(g, w) && 0 < k < |w| && w[k - 1] in s
    ensures Leads(g, s, w[k - 1], w[k])
  {
    assert Edge(g, w[k - 1], w[k]);
    PredsExact(g, w[k], w[k - 1]);
  }

  lemma CycleSupported(g: Graph, c: seq<nat>, r: Register)
    requires WellFormed(g) && SilentCycle(g, c, r)
    ensures Supported(g, Members(c), r)
  {
    hide Preds, Writes, Leads, Edge;
    var s := Members(c);
    forall i | i in s
      ensures i < |g.prog| && Passes(g, s, r, i)
    {
      var k :| 0 <= k < |c| && c[k] == i;
      var j := if k == 0 then |c| - 1 else k;
      StepLeads(g, c, s, j);
      assert Leads(g, s, c[j - 1], i);
    }
  }

  /** The instructions of the walk before the reader, together with a set that supports its start if it needs one. */
  lemma WalkSupported(g: Graph, w: seq<nat>, r: Register, base: set<nat>)
    requires WellFormed(g) && Walk(g, w) && |w| > 1 && Supported(g, base, r)
    requires Unwritten(g, w, r, 1, |w| - 1)
    requires w[0] in base || (w[0] == 0 && Unwritten(g, w, r, 0, 1)) || (w[0] != 0 && Preds(g, w[0]) == [])
    ensures Supported(g, base + Members(w[..|w| - 1]), r)
  {
    hide Preds, Writes, Leads, Edge;
    var s := base + Members(w[..|w| - 1]);
    forall i | i in s
      ensures i < |g.prog| && Passes(g, s, r, i)
    {
      if i in base {
        PassesMore(g, base, s, r, i);
      } else {
        var k :| 0 <= k < |w| - 1 && w[k] == i;
        if k > 0 {
          assert w[k - 1] in w[..|w| - 1];
          StepLeads(g, w, s, k);
          assert Leads(g, s, w[k - 1], i);
        }
      }
    }
  }

  lemma PassesMore(g: Graph, s: set<nat>, t: set<nat>, r: Register, i: nat)
    requires WellFormed(g) && s <= t && Supported(g, s, r) && i in s
    ensures i < |g.prog| && Passes(g, t, r, i)
  {
    hide Preds, Writes;
    if p :| Leads(g, s, p, i) { assert Leads(g, t, p, i); }
  }

  lemma EmptySupported(g: Graph, r: Register)
    requires WellFormed(g)
    ensures Supported(g, {}, r)
  {
  }

  lemma CarriesIsTaken(g: Graph, w: seq<nat>, r: Register)
    requires WellFormed(g) && Carries(g, w, r)
    ensures MayBeTaken(g, r, w[|w| - 1])
  {
    hide Preds, Writes, Reads, Leads, Edge, Supported;
    var i := w[|w| - 1];
    if i != 0 {
      if c :| SilentCycle(g, c, r) && c[0] == w[0] && Unwritten(g, w, r, 0, |w| - 1) {
        CycleSupported(g, c, r);
        if |w| == 1 {
          StepLeads(g, c, Members(c), |c| - 1);
          assert Leads(g, Members(c), c[|c| - 2], i);
        } else {
          assert w[0] in Members(c);
          WalkSupported(g, w, r, Members(c));
          LastLeads(g, w, Members(c));
        }
      } else {
        EmptySupported(g, r);
        WalkSupported(g, w, r, {});
        LastLeads(g, w, {});
      }
    }
  }

  lemma LastLeads(g: Graph, w: seq<nat>, base: set<nat>)
    requires WellFormed(g) && Walk(g, w) && |w| > 1
    ensures Leads(g, base + Members(w[..|w| - 1]), w[|w| - 2], w[|w| - 1])
  {
    assert w[|w| - 2] in w[..|w| - 1];
    StepLeads(g, w, base + Members(w[..|w| - 1]), |w| - 1);
  }

  // ----- from a supported set back to a walk -----

  /** A walk back from the reader inside a supported set ends at a start, or comes round. */
  lemma {:induction false} WalkBack(g: Graph, s: set<nat>, r: Register, v: seq<nat>) returns (w: seq<nat>)
    requires WellFormed(g) && Supported(g, s, r) && Walk(g, v) && |v| > 1
    requires Members(v[..|v| - 1]) <= s && Unwritten(g, v, r, 1, |v| - 1)
    ensures Walk(g, w) && w[|w| - 1] == v[|v| - 1] && Source(g, w, r)
    decreases s - Members(v[..|v| - 1])
  {
    hide Preds, Writes, Edge, Walk;
    WalkRange(g, v);
    var x := v[0];
    assert x in v[..|v| - 1];
    assert Passes(g, s, r, x);
    w := v;
    if !(x != 0 && Preds(g, x) == []) && x != 0 {
      var q :| Leads(g, s, q, x);
      PredsExact(g, x, q);
      if q in v[..|v| - 1] {
        var j :| 0 <= j < |v| - 1 && v[j] == q;
        w := v[j..];
        ComesRound(g, v, r, j);
      } else {
        var longer := [q] + v;
        WalkLonger(g, v, q);
        MembersGrow(v[..|v| - 1], q);
        assert longer[..|longer| - 1] == [q] + v[..|v| - 1];
        assert q in s;
        w := WalkBack(g, s, r, longer);
      }
    }
  }

  lemma MembersGrow(v: seq<nat>, q: nat)
    ensures Members([q] + v) == Members(v) + {q}
  {
  }

  /** An edge from inside the walk back to its start closes a silent cycle. */
  lemma ComesRound(g: Graph, v: seq<nat>, r: Register, j: nat)
    requires WellFormed(g) && Walk(g, v) && j < |v| - 1 && v[j] < |g.prog| && Edge(g, v[j], v[0])
    requires Unwritten(g, v, r, 0, |v| - 1)
    ensures Walk(g, v[j..]) && Source(g, v[j..], r)
  {
    hide Edge, Walk, Preds, Writes;
    WalkPart(g, v, j);
    var c := [v[j]] + v[..j + 1];
    CycleIsWalk(g, v, v[j], j);
    assert SilentCycle(g, c, r);
  }

  lemma WalkPart(g: Graph, v: seq<nat>, j: nat)
    requires WellFormed(g) && Walk(g, v) && j < |v|
    ensures Walk(g, v[j..])
  {
    hide Edge;
  }

  lemma WalkLonger(g: Graph, v: seq<nat>, q: nat)
    requires WellFormed(g) && Walk(g, v) && q < |g.prog| && Edge(g, q, v[0])
    ensures Walk(g, [q] + v)
  {
    hide Edge;
  }

  lemma CycleIsWalk(g: Graph, v: seq<nat>, q: nat, j: nat)
    requires WellFormed(g) && Walk(g, v) && q < |g.prog| && Edge(g, q, v[0]) && j < |v|
    ensures Walk(g, [q] + v[..j + 1])
  {
    hide Edge;
  }

  lemma TakenIsCarried(g: Graph, r: Register, i: nat) returns (w: seq<nat>)
    requires WellFormed(g) && MayBeTaken(g, r, i)
    ensures Carries(g, w, r)
  {
    hide Preds, Writes, Reads, Supported, Edge;
    if i == 0 {
      w := [0];
    } else {
      var s: set<nat>, p: nat :| Supported(g, s, r) && Leads(g, s, p, i);
      PredsExact(g, i, p);
      var v := [p, i];
      assert v[..1] == [p];
      w := WalkBack(g, s, r, v);
    }
  }

  /**
   * A register is reported as taken in if and only if some walk brings it to a reader unwritten: from the entry, from
   * an instruction that nothing precedes, or from a cycle that nowhere writes it.
   */
  lemma ReportIsCarried(g: Graph, n: nat, s: Summary, r: Register)
    requires WellFormed(g) && After(g, n + 1).defs == After(g, n).defs && Summarizes(g, After(g, n), s)
    ensures Has(s.incoming, r) <==> exists w :: Carries(g, w, r)
  {
    hide After, Summarizes, MayBeTaken, Has, Source;
    ReadsExact(g, n, s, r);
    if i: nat :| MayBeTaken(g, r, i) { var w := TakenIsCarried(g, r, i); }
    if w :| Carries(g, w, r) {
      CarriesIsTaken(g, w, r);
      assert MayBeTaken(g, r, w[|w| - 1]);
    }
  }

  // ----- when the report is exact for paths -----

  /** The path from the entry ends at a reader and nothing before it writes the register. */
  ghost predicate TakesIn(g: Graph, path: seq<nat>, r: Register)
    requires WellFormed(g) && IsPath(g, path)
  {
    Has(Reads(g.prog[path[|path| - 1]].op), r) && Unwritten(g, path, r, 0, |path| - 1)
  }

  ghost predicate TakenOnPath(g: Graph, r: Register)
    requires WellFormed(g)
  {
    exists path :: IsPath(g, path) && TakesIn(g, path, r)
  }

  /** Where all instructions are reachable and every cycle writes the register, the report is exact for paths. */
  lemma PathExact(g: Graph, n: nat, s: Summary, r: Register)
    requires WellFormed(g) && After(g, n + 1).defs == After(g, n).defs && Summarizes(g, After(g, n), s)
    requires forall i :: 0 <= i < |g.prog| ==> Reachable(g, i)
    requires forall c :: !SilentCycle(g, c, r)
    ensures Has(s.incoming, r) <==> TakenOnPath(g, r)
  {
    hide After, Summarizes, Reads, Writes, Preds, Reachable, Edge;
    ReportIsCarried(g, n, s, r);
    if w :| Carries(g, w, r) {
      ReachedHasPredecessor(g, w[0]);
      WalkFromEntry(g, w);
      assert TakesIn(g, w, r);
    }
    if path :| IsPath(g, path) && TakesIn(g, path, r) {
      WalkFromEntry(g, path);
      assert Carries(g, path, r);
    }
  }

  // ----- a loop forgets what was defined before it -----

  /** LDA #1 / loop: STA $80 / BNE loop / RTS */
  ghost predicate StoreLoop(g: Graph) {
    && |g.prog| == 4
    && Limits.At(g, 0, Ins(0, Op(LDA, Immediate)), [1], false)
    && Limits.At(g, 1, Ins(2, Op(STA, ZeroPage)), [2], false)
    && Limits.At(g, 2, Ins(4, Op(BNE, Relative)), [3, 1], false)
    && Limits.At(g, 3, Ins(6, Op(RTS, Implied)), [], true)
  }

  lemma StoreOpcodes()
    ensures Decode(0xA9) == Some(Op(LDA, Immediate)) && Decode(0x85) == Some(Op(STA, ZeroPage))
  {
  }

  lemma StoreLoopTiles(bytes: seq<byte>, g: Graph)
    requires bytes == [0xA9, 1, 0x85, 0x80, 0xD0, 0xFC, 0x60] && StoreLoop(g)
    ensures Tiles(bytes, 0, 7, g.prog)
  {
    hide Decode, Sensible;
    StoreOpcodes();
    Limits.Opcodes();
  }

  lemma StoreLoopGraph(bytes: seq<byte>, g: Graph)
    requires bytes == [0xA9, 1, 0x85, 0x80, 0xD0, 0xFC, 0x60] && StoreLoop(g)
    ensures GraphOf(bytes, map[]) == Some(g) && WellFormed(g)
  {
    hide Decode, Sensible, Tiles, GraphOf, WellFormed;
    StoreLoopTiles(bytes, g);
    IndexUnique(bytes, g.prog, 1);
    forall i | 0 <= i < |g.prog|
      ensures g.succs[i] == Successors(bytes, map[], g.prog, i) && g.exits[i] == IsExit(map[], g.prog, i)
    {
      hide IndexOf;
      if i == 0 {} else if i == 1 {} else if i == 2 {} else {}
    }
    Limits.GraphIs(bytes, g);
  }

  /**
   * The bytes of the loop: A is reported as taken in, but no path takes it in, because the first instruction loads
   * it.
   */
  lemma StoreLoopReported(bytes: seq<byte>, g: Graph, n: nat, s: Summary)
    requires bytes == [0xA9, 1, 0x85, 0x80, 0xD0, 0xFC, 0x60] && StoreLoop(g)
    ensures GraphOf(bytes, map[]) == Some(g) && WellFormed(g)
    ensures After(g, n + 1).defs == After(g, n).defs && Summarizes(g, After(g, n), s) ==> Has(s.incoming, RA)
    ensures !TakenOnPath(g, RA)
  {
    StoreLoopGraph(bytes, g);
    hide After, GraphOf, Summarizes, Decode;
    StoreLoopCarries(g);
    if After(g, n + 1).defs == After(g, n).defs && Summarizes(g, After(g, n), s) {
      hide Carries;
      ReportIsCarried(g, n, s, RA);
    }
    forall path | IsPath(g, path) ensures !TakesIn(g, path, RA) { LoadedFirst(g, path); }
  }

  lemma StoreLoopCarries(g: Graph)
    requires WellFormed(g) && StoreLoop(g)
    ensures Carries(g, [1], RA)
  {
    hide Preds, WellFormed;
    var c := [1, 2, 1];
    assert Edge(g, 1, 2) && Edge(g, 2, 1);
    assert SilentCycle(g, c, RA);
  }

  lemma LoadedFirst(g: Graph, path: seq<nat>)
    requires WellFormed(g) && StoreLoop(g) && IsPath(g, path)
    ensures !TakesIn(g, path, RA)
  {
    hide Edge, WellFormed;
    assert path[0] == 0 && Has(Writes(g.prog[0].op), RA) && !Has(Reads(g.prog[0].op), RA);
  }
}
