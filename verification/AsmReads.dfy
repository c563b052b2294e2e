/** Exactly which registers the analysis reports as taken in, and why every path agrees. */
module AsmReads {
  import opened Wrappers
  import opened Isa
  import opened AsmGraph
  import opened AsmSweep
  import opened AsmFixpoint
  import opened AsmDepth
  import opened AsmAnalyze

  // ----- sets of instructions that let a register through -----

  ghost predicate Leads(g: Graph, s: set<nat>, p: nat, i: nat) {
    p in s && p in Preds(g, i)
  }

  /**
   * The register gets past instruction `i` unwritten: from the entry, from nowhere, or from a member of `s` before
   * it.
   */
  ghost predicate Passes(g: Graph, s: set<nat>, r: Register, i: nat)
    requires WellFormed(g) && i < |g.prog|
  {
    || (i != 0 && Preds(g, i) == [])
    || (!Has(Writes(g.prog[i].op), r) && (i == 0 || exists p :: Leads(g, s, p, i)))
  }

  /** Each member is passed on account of another one; a loop without a write supports itself. */
  ghost predicate Supported(g: Graph, s: set<nat>, r: Register)
    requires WellFormed(g)
  {
    forall i :: i in s ==> i < |g.prog| && Passes(g, s, r, i)
  }

  ghost predicate Undefined(d: Defs, s: set<nat>, r: Register) {
    forall i :: i in s ==> i < |d.out| && !Has(d.out[i], r)
  }

  lemma MeetLacks(ps: seq<nat>, out: seq<Registers>, start: Option<Registers>, r: Register, p: nat)
    requires Below(ps, |out|) && p in ps && !Has(out[p], r)
    ensures Meet(ps, out, start).Some? && !Has(Meet(ps, out, start).value, r)
  {
    MeetIsLowerBound(ps, out, start);
    assert Within(Meet(ps, out, start).value, out[p]);
  }

  lemma MeetStartLacks(ps: seq<nat>, out: seq<Registers>, r: Register)
    requires Below(ps, |out|)
    ensures Meet(ps, out, Some(NONE)).Some? && !Has(Meet(ps, out, Some(NONE)).value, r)
  {
    MeetIsLowerBound(ps, out, Some(NONE));
    assert Within(Meet(ps, out, Some(NONE)).value, NONE);
  }

  lemma UpdateKeepsUndefined(g: Graph, d: Defs, s: set<nat>, r: Register, i: nat)
    requires WellFormed(g) && DefsFor(g, d) && Supported(g, s, r) && Undefined(d, s, r) && i < |g.prog|
    ensures Undefined(DefsAt(g, d, i), s, r)
  {
    hide Meet, Preds, Writes;
    if i in s {
      assert Passes(g, s, r, i);
      if i == 0 {
        MeetStartLacks(Preds(g, i), d.out, r);
      } else if Preds(g, i) != [] {
        var p :| Leads(g, s, p, i);
        MeetLacks(Preds(g, i), d.out, Start(i), r, p);
      }
    }
  }

  lemma {:induction false} SweepKeepsUndefined(g: Graph, d: Defs, s: set<nat>, r: Register, from: nat)
    requires WellFormed(g) && DefsFor(g, d) && Supported(g, s, r) && Undefined(d, s, r) && from <= |g.prog|
    ensures Undefined(DefsSweep(g, d, from), s, r)
    decreases |g.prog| - from
  {
    hide DefsAt, Supported, Undefined;
    if from < |g.prog| {
      UpdateKeepsUndefined(g, d, s, r, from);
      SweepKeepsUndefined(g, DefsAt(g, d, from), s, r, from + 1);
    }
  }

  lemma {:induction false} NeverDefined(g: Graph, s: set<nat>, r: Register, n: nat)
    requires WellFormed(g) && Supported(g, s, r)
    ensures Undefined(After(g, n).defs, s, r)
    decreases n
  {
    if n == 0 {
      hide Passes;
    } else {
      hide Supported, Undefined, WellFormed, DefsSweep, DepthSweep;
      NeverDefined(g, s, r, n - 1);
      SweepKeepsUndefined(g, After(g, n - 1).defs, s, r, 0);
    }
  }

  /** A register missing from the meet is missing from some predecessor, unless it is missing at the start. */
  lemma {:induction false} MeetLacksFrom(ps: seq<nat>, out: seq<Registers>, start: Option<Registers>, r: Register)
    returns (p: nat)
    requires Below(ps, |out|) && Meet(ps, out, start).Some? && !Has(Meet(ps, out, start).value, r)
    requires start.None? || Has(start.value, r)
    ensures p in ps && !Has(out[p], r)
  {
    if ps != [] {
      var n := |ps| - 1;
      if !Has(out[ps[n]], r) {
        p := ps[n];
      } else {
        p := MeetLacksFrom(ps[..n], out, start, r);
      }
    }
  }

  function WithoutOut(g: Graph, d: Defs, r: Register): set<nat>
    requires DefsFor(g, d)
  {
    set i: nat | i < |g.prog| && !Has(d.out[i], r)
  }

  /** Conversely the instructions the register leaves undefined support each other. */
  lemma UndefinedSupported(g: Graph, d: Defs, r: Register)
    requires WellFormed(g) && DefsFor(g, d) && Solves(g, d)
    ensures Supported(g, WithoutOut(g, d, r), r)
  {
    hide Meet, Preds, Writes;
    var s := WithoutOut(g, d, r);
    forall i | i in s
      ensures i < |g.prog| && Passes(g, s, r, i)
    {
      assert CellSolved(g, d, i);
      if d.into[i].Some? && i != 0 {
        var p := MeetLacksFrom(Preds(g, i), d.out, Start(i), r);
        assert Leads(g, s, p, i);
      }
    }
  }

  // ----- the report, said without sweeps -----

  /** Why a register may be taken in: an instruction reads it and some supported set lets it get there unwritten. */
  ghost predicate MayBeTaken(g: Graph, r: Register, i: nat)
    requires WellFormed(g)
  {
    && i < |g.prog| && Has(Reads(g.prog[i].op), r)
    && (i == 0 || exists s, p :: Supported(g, s, r) && Leads(g, s, p, i))
  }

  lemma CountedIsTaken(g: Graph, n: nat, r: Register, i: nat)
    requires WellFormed(g) && After(g, n + 1).defs == After(g, n).defs && i < |g.prog|
    requires CountedRead(g, After(g, n), r, i)
    ensures MayBeTaken(g, r, i)
  {
    hide After, Meet, Preds, Supported, Reads, Writes;
    var d := After(g, n).defs;
    SettledSolves(g, n);
    assert CellSolved(g, d, i);
    if i != 0 {
      var p := MeetLacksFrom(Preds(g, i), d.out, Start(i), r);
      UndefinedSupported(g, d, r);
      var s := WithoutOut(g, d, r);
      assert Supported(g, s, r) && Leads(g, s, p, i);
    }
  }

  lemma TakenIsCounted(g: Graph, n: nat, r: Register, i: nat)
    requires WellFormed(g) && After(g, n + 1).defs == After(g, n).defs && MayBeTaken(g, r, i)
    ensures CountedRead(g, After(g, n), r, i)
  {
    hide After, Meet, Preds, Supported, Reads, Writes;
    var d := After(g, n).defs;
    SettledSolves(g, n);
    assert CellSolved(g, d, i);
    if i == 0 {
      MeetStartLacks(Preds(g, i), d.out, r);
    } else {
      var s: set<nat>, p: nat :| Supported(g, s, r) && Leads(g, s, p, i);
      NeverDefined(g, s, r, n);
      MeetLacks(Preds(g, i), d.out, Start(i), r, p);
    }
  }

  /** The reported registers are exactly those some instruction reads behind a supported set. */
  lemma ReadsExact(g: Graph, n: nat, s: Summary, r: Register)
    requires WellFormed(g) && After(g, n + 1).defs == After(g, n).defs && Summarizes(g, After(g, n), s)
    ensures Has(s.incoming, r) <==> exists i :: MayBeTaken(g, r, i)
  {
    hide After, Supported, CountedRead;
    var f := After(g, n);
    assert ReadsSummed(g, f, s.incoming, |g.prog|);
    if Has(s.incoming, r) {
      var i :| 0 <= i < |g.prog| && CountedRead(g, f, r, i);
      CountedIsTaken(g, n, r, i);
    }
    if i: nat :| MayBeTaken(g, r, i) {
      TakenIsCounted(g, n, r, i);
    }
  }

  // ----- what it means along paths -----

  function Visited(path: seq<nat>, k: nat): set<nat>
    requires k <= |path|
  {
    set j: nat | j < k :: path[j]
  }

  lemma UnwrittenSupported(g: Graph, path: seq<nat>, k: nat, r: Register)
    requires WellFormed(g) && IsPath(g, path) && k < |path|
    requires forall j :: 0 <= j < k ==> !Has(Writes(g.prog[path[j]].op), r)
    ensures Supported(g, Visited(path, k), r)
  {
    hide Preds, Writes;
    var s := Visited(path, k);
    forall i | i in s
      ensures i < |g.prog| && Passes(g, s, r, i)
    {
      var j: nat :| j < k && path[j] == i;
      if j > 0 {
        assert Edge(g, path[j - 1], path[j]);
        PredsExact(g, i, path[j - 1]);
        assert path[j - 1] in s;
        assert Leads(g, s, path[j - 1], i);
      }
    }
  }

  /**
   * On every path from the entry, of any length, a register outside the reported set is written before any
   * instruction that reads it, and every register written is reported as clobbered.
   */
  lemma PathSound(g: Graph, n: nat, s: Summary, path: seq<nat>, k: nat, r: Register)
    requires WellFormed(g) && After(g, n + 1).defs == After(g, n).defs && Summarizes(g, After(g, n), s)
    requires IsPath(g, path) && k < |path|
    ensures Has(Reads(g.prog[path[k]].op), r) && !Has(s.incoming, r) ==>
      exists j :: 0 <= j < k && Has(Writes(g.prog[path[j]].op), r)
    ensures Has(Writes(g.prog[path[k]].op), r) ==> Has(s.clobbers, r)
  {
    hide Preds, Supported, Reads, Writes, Summarizes, After;
    var i := path[k];
    if Has(Reads(g.prog[i].op), r) && forall j :: 0 <= j < k ==> !Has(Writes(g.prog[path[j]].op), r) {
      UnwrittenSupported(g, path, k, r);
      if i != 0 {
        assert Edge(g, path[k - 1], path[k]);
        PredsExact(g, i, path[k - 1]);
        assert Leads(g, Visited(path, k), path[k - 1], i);
      }
      assert MayBeTaken(g, r, i);
      ReadsExact(g, n, s, r);
    }
    PathIncoming(g, n, path, k);
    if Has(Writes(g.prog[i].op), r) {
      assert CountedWrite(g, After(g, n), r, i);
      ClobbersOf(g, After(g, n), s);
    }
  }

  lemma ClobbersOf(g: Graph, f: Flow, s: Summary)
    requires WellFormed(g) && FlowFor(g, f) && Summarizes(g, f, s)
    ensures WritesSummed(g, f, s.clobbers, |g.prog|)
  {
  }

  lemma PathIncoming(g: Graph, n: nat, path: seq<nat>, k: nat)
    requires WellFormed(g) && After(g, n + 1).defs == After(g, n).defs && IsPath(g, path) && k < |path|
    ensures After(g, n).defs.into[path[k]].Some?
  {
    hide Preds, After, Meet;
    SettledSolves(g, n);
    assert CellSolved(g, After(g, n).defs, path[k]);
    if path[k] != 0 {
      assert Edge(g, path[k - 1], path[k]);
      PredsExact(g, path[k], path[k - 1]);
    }
  }
}
