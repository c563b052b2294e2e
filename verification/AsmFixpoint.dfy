/** When the sweeps settle and on what: least fixpoint of the definitions, exact labelling of the depths. */
module AsmFixpoint {
  import opened Wrappers
  import opened Isa
  import opened AsmGraph
  import opened AsmSweep

  // ----- order on definition states -----

  ghost predicate CellLeq(d: Defs, e: Defs, i: nat)
    requires i < |d.into| && i < |d.out| && i < |e.into| && i < |e.out|
  {
    (d.into[i].Some? ==> e.into[i].Some? && Within(d.into[i].value, e.into[i].value)) && Within(d.out[i], e.out[i])
  }

  ghost predicate Leq(g: Graph, d: Defs, e: Defs)
    requires DefsFor(g, d) && DefsFor(g, e)
  {
    forall i :: 0 <= i < |g.prog| ==> CellLeq(d, e, i)
  }

  lemma DefsAtMonotone(g: Graph, d: Defs, e: Defs, i: nat)
    requires WellFormed(g) && DefsFor(g, d) && DefsFor(g, e) && i < |g.prog| && Leq(g, d, e)
    ensures Leq(g, DefsAt(g, d, i), DefsAt(g, e, i))
  {
    hide Preds, Within;
    var ps := Preds(g, i);
    forall p | 0 <= p < |d.out|
      ensures Within(d.out[p], e.out[p])
    {
      assert CellLeq(d, e, p);
    }
    MeetMonotone(ps, d.out, e.out, Start(i));
    hide Meet;
    var d2, e2 := DefsAt(g, d, i), DefsAt(g, e, i);
    if Meet(ps, d.out, Start(i)).Some? {
      MergeMonotone(Meet(ps, d.out, Start(i)).value, Meet(ps, e.out, Start(i)).value, Writes(g.prog[i].op));
    }
    forall j | 0 <= j < |g.prog|
      ensures CellLeq(d2, e2, j)
    {
      assert CellLeq(d, e, j);
    }
  }

  lemma MergeMonotone(s: Registers, t: Registers, w: Registers)
    requires Within(s, t)
    ensures Within(Merge(s, w), Merge(t, w))
  {
  }

  lemma LeqTrans(g: Graph, a: Defs, b: Defs, c: Defs)
    requires DefsFor(g, a) && DefsFor(g, b) && DefsFor(g, c) && Leq(g, a, b) && Leq(g, b, c)
    ensures Leq(g, a, c)
  {
    forall i | 0 <= i < |g.prog|
      ensures CellLeq(a, c, i)
    {
      assert CellLeq(a, b, i) && CellLeq(b, c, i);
    }
  }

  lemma LeqRefl(g: Graph, d: Defs)
    requires DefsFor(g, d)
    ensures Leq(g, d, d)
  {
  }

  // ----- every update grows the state -----

  ghost predicate Inflating(g: Graph, d: Defs)
    requires WellFormed(g) && DefsFor(g, d)
  {
    forall i :: 0 <= i < |g.prog| ==> Leq(g, d, DefsAt(g, d, i))
  }

  lemma InflatingStep(g: Graph, d: Defs, j: nat)
    requires WellFormed(g) && DefsFor(g, d) && Inflating(g, d) && j < |g.prog|
    ensures Leq(g, d, DefsAt(g, d, j)) && Inflating(g, DefsAt(g, d, j))
  {
    hide Leq;
    var e := DefsAt(g, d, j);
    forall i | 0 <= i < |g.prog|
      ensures Leq(g, e, DefsAt(g, e, i))
    {
      GrowsTwice(g, d, j, i);
    }
  }

  /** Updating at `i` after `j` cannot undo anything: each cell is at least what `d` or the update at `j` had. */
  lemma GrowsTwice(g: Graph, d: Defs, j: nat, i: nat)
    requires WellFormed(g) && DefsFor(g, d) && j < |g.prog| && i < |g.prog| && Inflating(g, d)
    ensures var e := DefsAt(g, d, j); Leq(g, e, DefsAt(g, e, i))
  {
    var e := DefsAt(g, d, j);
    var e2 := DefsAt(g, e, i);
    assert Leq(g, d, e) && Leq(g, d, DefsAt(g, d, i));
    DefsAtMonotone(g, d, e, i);
    forall k | 0 <= k < |g.prog|
      ensures CellLeq(e, e2, k)
    {
      assert CellLeq(DefsAt(g, d, i), e2, k);
      if k == i {
        if i == j {
        } else {
          assert CellLeq(d, DefsAt(g, d, i), k);
        }
      }
    }
  }

  lemma {:induction false} SweepAscends(g: Graph, d: Defs, from: nat)
    requires WellFormed(g) && DefsFor(g, d) && Inflating(g, d) && from <= |g.prog|
    ensures Leq(g, d, DefsSweep(g, d, from)) && Inflating(g, DefsSweep(g, d, from))
    decreases |g.prog| - from
  {
    hide Inflating, Leq, DefsAt;
    if from == |g.prog| {
      LeqRefl(g, d);
    } else {
      InflatingStep(g, d, from);
      var e := DefsAt(g, d, from);
      SweepAscends(g, e, from + 1);
      LeqTrans(g, d, e, DefsSweep(g, e, from + 1));
    }
  }

  lemma InitialInflating(g: Graph)
    requires WellFormed(g)
    ensures Inflating(g, Initial(g).defs)
  {
    var d := Initial(g).defs;
    forall i | 0 <= i < |g.prog|
      ensures Leq(g, d, DefsAt(g, d, i))
    {
      hide Preds, Meet, Merge, Writes, Leq, Within;
      NothingBelow(g, d, DefsAt(g, d, i));
    }
  }

  /** Cells without information are below any others. */
  lemma NothingBelow(g: Graph, d: Defs, e: Defs)
    requires DefsFor(g, d) && DefsFor(g, e)
    requires forall i :: 0 <= i < |g.prog| ==>
      d.out[i] == NONE && (d.into[i].Some? ==> d.into[i].value == NONE && e.into[i].Some?)
    ensures Leq(g, d, e)
  {
    assert forall s :: Within(NONE, s);
  }

  lemma {:induction false} AfterInflating(g: Graph, n: nat)
    requires WellFormed(g)
    ensures Inflating(g, After(g, n).defs)
    decreases n
  {
    hide Inflating;
    if n == 0 {
      InitialInflating(g);
    } else {
      AfterInflating(g, n - 1);
      SweepAscends(g, After(g, n - 1).defs, 0);
    }
  }

  // ----- the definitions settle, on every block -----

  function Count(r: Registers): nat {
    (if r.a then 1 else 0) + (if r.x then 1 else 0) + (if r.y then 1 else 0) + (if r.flags then 1 else 0) + if r.sp then 1 else 0
  }

  function CellRank(d: Defs, i: nat): (r: nat)
    requires i < |d.into| && i < |d.out|
    ensures r <= 11
  {
    (if d.into[i].Some? then 1 + Count(d.into[i].value) else 0) + Count(d.out[i])
  }

  /** How many facts the first `n` cells hold. */
  function Rank(d: Defs, n: nat): (r: nat)
    requires n <= |d.into| && n <= |d.out|
    ensures r <= 11 * n
  {
    if n == 0 then 0 else Rank(d, n - 1) + CellRank(d, n - 1)
  }

  lemma CountMonotone(s: Registers, t: Registers)
    requires Within(s, t)
    ensures Count(s) <= Count(t) && (Count(s) == Count(t) ==> s == t)
  {
    assert (Has(s, RA) ==> Has(t, RA)) && (Has(s, RX) ==> Has(t, RX)) && (Has(s, RY) ==> Has(t, RY))
        && (Has(s, RFlags) ==> Has(t, RFlags)) && (Has(s, RSp) ==> Has(t, RSp));
  }

  lemma CellRankMonotone(d: Defs, e: Defs, i: nat)
    requires i < |d.into| && i < |d.out| && i < |e.into| && i < |e.out| && CellLeq(d, e, i)
    ensures CellRank(d, i) <= CellRank(e, i)
    ensures CellRank(d, i) == CellRank(e, i) ==> d.into[i] == e.into[i] && d.out[i] == e.out[i]
  {
    hide Within;
    CountMonotone(d.out[i], e.out[i]);
    if d.into[i].Some? { CountMonotone(d.into[i].value, e.into[i].value); }
  }

  ghost predicate SameCell(d: Defs, e: Defs, i: nat)
    requires i < |d.into| && i < |d.out| && i < |e.into| && i < |e.out|
  {
    d.into[i] == e.into[i] && d.out[i] == e.out[i]
  }

  lemma {:induction false} RankMonotone(g: Graph, d: Defs, e: Defs, n: nat)
    requires DefsFor(g, d) && DefsFor(g, e) && Leq(g, d, e) && n <= |g.prog|
    ensures Rank(d, n) <= Rank(e, n)
    ensures Rank(d, n) == Rank(e, n) ==> forall i :: 0 <= i < n ==> SameCell(d, e, i)
  {
    if n > 0 {
      RankMonotone(g, d, e, n - 1);
      assert CellLeq(d, e, n - 1);
      CellRankMonotone(d, e, n - 1);
      hide CellRank, CellLeq;
    }
  }

  lemma SweepRanks(g: Graph, d: Defs)
    requires WellFormed(g) && DefsFor(g, d) && Inflating(g, d)
    ensures var e := DefsSweep(g, d, 0);
      Rank(d, |g.prog|) <= Rank(e, |g.prog|) && (Rank(d, |g.prog|) == Rank(e, |g.prog|) ==> d == e)
  {
    hide Inflating, Rank;
    var e, n := DefsSweep(g, d, 0), |g.prog|;
    SweepAscends(g, d, 0);
    RankMonotone(g, d, e, n);
    if Rank(d, n) == Rank(e, n) {
      assert forall i :: 0 <= i < n ==> SameCell(d, e, i);
      forall i | 0 <= i < n
        ensures d.into[i] == e.into[i] && d.out[i] == e.out[i]
      {
        assert SameCell(d, e, i);
      }
      assert d.into == e.into && d.out == e.out;
    }
  }

  /** Once a sweep leaves the definitions alone, so does every later one. */
  lemma {:induction false} DefsStay(g: Graph, m: nat, n: nat)
    requires WellFormed(g) && m <= n && After(g, m + 1).defs == After(g, m).defs
    ensures After(g, n).defs == After(g, m).defs
    decreases n
  {
    hide DefsSweep, DepthSweep, Initial;
    if m < n {
      DefsStay(g, m, n - 1);
    }
  }

  lemma {:induction false} RankOrSettled(g: Graph, n: nat)
    requires WellFormed(g)
    ensures Rank(After(g, n).defs, |g.prog|) >= n || After(g, n + 1).defs == After(g, n).defs
    decreases n
  {
    hide DefsSweep, DepthSweep, Initial, Rank;
    if n > 0 {
      RankOrSettled(g, n - 1);
      AfterInflating(g, n - 1);
      SweepRanks(g, After(g, n - 1).defs);
      if After(g, n).defs == After(g, n - 1).defs { DefsStay(g, n - 1, n + 1); DefsStay(g, n - 1, n); }
    }
  }

  /** On every block the definitions half stops changing within eleven sweeps per instruction. */
  lemma DefsSettle(g: Graph, n: nat)
    requires WellFormed(g) && n >= 11 * |g.prog| + 1
    ensures After(g, n + 1).defs == After(g, n).defs
  {
    hide Rank;
    RankOrSettled(g, n);
    assert Rank(After(g, n).defs, |g.prog|) <= 11 * |g.prog|;
  }

  // ----- what they settle on -----

  /** The equations of the analysis. */
  ghost predicate Solves(g: Graph, d: Defs)
    requires WellFormed(g) && DefsFor(g, d)
  {
    forall i :: 0 <= i < |g.prog| ==> CellSolved(g, d, i)
  }

  ghost predicate CellSolved(g: Graph, d: Defs, i: nat)
    requires WellFormed(g) && DefsFor(g, d) && i < |g.prog|
  {
    && d.into[i] == Meet(Preds(g, i), d.out, Start(i))
    && d.out[i] == if d.into[i].Some? then Merge(d.into[i].value, Writes(g.prog[i].op)) else NONE
  }

  /** An untouched cell keeps its value through the rest of a sweep. */
  lemma {:induction false} SweepLeaves(g: Graph, d: Defs, from: nat, i: nat)
    requires WellFormed(g) && DefsFor(g, d) && i < from <= |g.prog|
    ensures var e := DefsSweep(g, d, from); e.into[i] == d.into[i] && e.out[i] == d.out[i]
    decreases |g.prog| - from
  {
    hide Meet, Preds, Merge, Writes;
    if from < |g.prog| {
      SweepLeaves(g, DefsAt(g, d, from), from + 1, i);
    }
  }

  lemma OnlyDefsCellChanges(g: Graph, d: Defs, i: nat)
    requires WellFormed(g) && DefsFor(g, d) && i < |g.prog|
    ensures var e := DefsAt(g, d, i); e.into == d.into[i := e.into[i]] && e.out == d.out[i := e.out[i]]
  {
    hide Meet, Preds, Merge, Writes;
  }

  lemma {:induction false} SweepFixed(g: Graph, d: Defs, from: nat)
    requires WellFormed(g) && DefsFor(g, d) && from <= |g.prog| && DefsSweep(g, d, from) == d
    ensures forall i :: from <= i < |g.prog| ==> DefsAt(g, d, i) == d
    decreases |g.prog| - from
  {
    hide DefsAt, WellFormed;
    if from < |g.prog| {
      var e := DefsAt(g, d, from);
      SweepLeaves(g, e, from + 1, from);
      OnlyDefsCellChanges(g, d, from);
      assert e == d;
      SweepFixed(g, d, from + 1);
    }
  }

  /** Cells without an incoming set have nothing defined on the way out. */
  ghost predicate NoneOut(g: Graph, d: Defs)
    requires DefsFor(g, d)
  {
    forall i :: 0 <= i < |g.prog| && d.into[i].None? ==> d.out[i] == NONE
  }

  lemma {:induction false} SweepKeepsNoneOut(g: Graph, d: Defs, from: nat)
    requires WellFormed(g) && DefsFor(g, d) && NoneOut(g, d) && Inflating(g, d) && from <= |g.prog|
    ensures NoneOut(g, DefsSweep(g, d, from))
    decreases |g.prog| - from
  {
    hide Meet, Preds, Merge, Writes;
    if from < |g.prog| {
      InflatingStep(g, d, from);
      assert CellLeq(d, DefsAt(g, d, from), from);
      SweepKeepsNoneOut(g, DefsAt(g, d, from), from + 1);
    }
  }

  lemma {:induction false} AfterNoneOut(g: Graph, n: nat)
    requires WellFormed(g)
    ensures NoneOut(g, After(g, n).defs)
    decreases n
  {
    hide Meet, Preds, Merge, Writes;
    if n > 0 {
      AfterNoneOut(g, n - 1);
      AfterInflating(g, n - 1);
      SweepKeepsNoneOut(g, After(g, n - 1).defs, 0);
    }
  }

  /** A state the sweeps settle on satisfies the equations. */
  lemma SettledSolves(g: Graph, n: nat)
    requires WellFormed(g) && After(g, n + 1).defs == After(g, n).defs
    ensures Solves(g, After(g, n).defs)
  {
    var d := After(g, n).defs;
    AfterNoneOut(g, n);
    SweepFixed(g, d, 0);
    hide Meet, Preds, Merge, Writes, After;
    forall i | 0 <= i < |g.prog|
      ensures CellSolved(g, d, i)
    {
      assert DefsAt(g, d, i) == d;
    }
  }

  lemma {:induction false} SweepBelowSolution(g: Graph, d: Defs, e: Defs, from: nat)
    requires WellFormed(g) && DefsFor(g, d) && DefsFor(g, e) && Solves(g, e) && Leq(g, d, e) && from <= |g.prog|
    ensures Leq(g, DefsSweep(g, d, from), e)
    decreases |g.prog| - from
  {
    hide Leq;
    if from < |g.prog| {
      DefsAtMonotone(g, d, e, from);
      assert DefsAt(g, e, from) == e by { assert CellSolved(g, e, from); }
      SweepBelowSolution(g, DefsAt(g, d, from), e, from + 1);
    }
  }

  /** No sweep ever goes above a solution: what the sweeps settle on is the least one. */
  lemma {:induction false} AfterIsLeast(g: Graph, n: nat, e: Defs)
    requires WellFormed(g) && DefsFor(g, e) && Solves(g, e)
    ensures Leq(g, After(g, n).defs, e)
    decreases n
  {
    if n == 0 {
      hide Meet, Preds, Merge, Writes;
      forall i | 0 <= i < |g.prog|
        ensures CellLeq(Initial(g).defs, e, i)
      {
        assert CellSolved(g, e, i);
      }
    } else {
      AfterIsLeast(g, n - 1, e);
      SweepBelowSolution(g, After(g, n - 1).defs, e, 0);
    }
  }
}
