/** The summary of an encoded inline block: registers taken in, registers clobbered, stack depth at the exits. */
module AsmAnalyze {
  import opened Wrappers
  import opened Isa
  import opened AsmGraph
  import opened AsmSweep
  import opened AsmFixpoint
  import opened AsmStack

  datatype Summary = Summary(incoming: Registers, clobbers: Registers, stackDelta: Option<int>, balanced: bool)

  const UNKNOWN: Summary := Summary(ALL, ALL, None, false)

  // ----- what each field says -----

  predicate CountedRead(g: Graph, f: Flow, r: Register, i: nat)
    requires WellFormed(g) && FlowFor(g, f) && i < |g.prog|
  {
    f.defs.into[i].Some? && Has(Reads(g.prog[i].op), r) && !Has(f.defs.into[i].value, r)
  }

  predicate CountedWrite(g: Graph, f: Flow, r: Register, i: nat)
    requires WellFormed(g) && FlowFor(g, f) && i < |g.prog|
  {
    f.defs.into[i].Some? && Has(Writes(g.prog[i].op), r)
  }

  ghost predicate ReadsSummed(g: Graph, f: Flow, s: Registers, upto: nat)
    requires WellFormed(g) && FlowFor(g, f) && upto <= |g.prog|
  {
    forall r :: Has(s, r) <==> exists i :: 0 <= i < upto && CountedRead(g, f, r, i)
  }

  ghost predicate WritesSummed(g: Graph, f: Flow, s: Registers, upto: nat)
    requires WellFormed(g) && FlowFor(g, f) && upto <= |g.prog|
  {
    forall r :: Has(s, r) <==> exists i :: 0 <= i < upto && CountedWrite(g, f, r, i)
  }

  ghost predicate SomeExit(g: Graph, f: Flow, upto: nat)
    requires WellFormed(g) && FlowFor(g, f) && upto <= |g.prog|
  {
    exists i :: 0 <= i < upto && CountedExit(g, f, i)
  }

  ghost predicate AllExitsAt(g: Graph, f: Flow, d: Option<int>, upto: nat)
    requires WellFormed(g) && FlowFor(g, f) && upto <= |g.prog|
  {
    forall i :: 0 <= i < upto && CountedExit(g, f, i) ==> ExitDepth(g, f.depth, i) == d
  }

  /** The depth all exits share, when it fits a signed byte. */
  ghost predicate CommonDepth(g: Graph, f: Flow, delta: Option<int>)
    requires WellFormed(g) && FlowFor(g, f)
  {
    forall d: int :: delta == Some(d) <==> -128 <= d < 128 && SomeExit(g, f, |g.prog|) && AllExitsAt(g, f, Some(d), |g.prog|)
  }

  ghost predicate Summarizes(g: Graph, f: Flow, s: Summary)
    requires WellFormed(g) && FlowFor(g, f)
  {
    && ReadsSummed(g, f, s.incoming, |g.prog|)
    && WritesSummed(g, f, s.clobbers, |g.prog|)
    && CommonDepth(g, f, s.stackDelta)
    && s.balanced == Balanced(g, f)
  }

  // ----- the loops -----

  method SumRegisters(g: Graph, f: Flow) returns (incoming: Registers, clobbers: Registers)
    requires WellFormed(g) && FlowFor(g, f)
    ensures ReadsSummed(g, f, incoming, |g.prog|) && WritesSummed(g, f, clobbers, |g.prog|)
  {
    incoming, clobbers := NONE, NONE;
    for index := 0 to |g.prog|
      invariant ReadsSummed(g, f, incoming, index) && WritesSummed(g, f, clobbers, index)
    {
      hide Reads, Writes, WellFormed, ReadsSummed, WritesSummed;
      AddRegisters(g, f, incoming, clobbers, index);
      var defs := f.defs.into[index];
      if defs.Some? {
        incoming := Merge(incoming, Subtract(Reads(g.prog[index].op), defs.value));
        clobbers := Merge(clobbers, Writes(g.prog[index].op));
      }
    }
  }

  lemma AddRegisters(g: Graph, f: Flow, incoming: Registers, clobbers: Registers, i: nat)
    requires WellFormed(g) && FlowFor(g, f) && i < |g.prog|
    requires ReadsSummed(g, f, incoming, i) && WritesSummed(g, f, clobbers, i)
    ensures var defs := f.defs.into[i];
      if defs.Some? then
        && ReadsSummed(g, f, Merge(incoming, Subtract(Reads(g.prog[i].op), defs.value)), i + 1)
        && WritesSummed(g, f, Merge(clobbers, Writes(g.prog[i].op)), i + 1)
      else ReadsSummed(g, f, incoming, i + 1) && WritesSummed(g, f, clobbers, i + 1)
  {
    hide Reads, Writes, WellFormed, Merge, Subtract;
    var defs := f.defs.into[i];
    var more := if defs.Some? then Merge(incoming, Subtract(Reads(g.prog[i].op), defs.value)) else incoming;
    var more2 := if defs.Some? then Merge(clobbers, Writes(g.prog[i].op)) else clobbers;
    forall r
      ensures Has(more, r) <==> exists k :: 0 <= k < i + 1 && CountedRead(g, f, r, k)
    {
      assert Has(more, r) <==> Has(incoming, r) || CountedRead(g, f, r, i);
    }
    forall r
      ensures Has(more2, r) <==> exists k :: 0 <= k < i + 1 && CountedWrite(g, f, r, k)
    {
      assert Has(more2, r) <==> Has(clobbers, r) || CountedWrite(g, f, r, i);
    }
  }

  method SumExits(g: Graph, f: Flow) returns (delta: Option<int>, balanced: bool)
    requires WellFormed(g) && FlowFor(g, f)
    ensures CommonDepth(g, f, delta) && balanced == Balanced(g, f)
  {
    hide ExitDepth, WellFormed;
    var exitDepth: Option<int>, compatible := None, true;
    balanced := true;
    for index := 0 to |g.prog|
      invariant balanced <==> AllExitsAt(g, f, Some(0), index)
      invariant compatible && exitDepth.None? ==> !SomeExit(g, f, index)
      invariant compatible && exitDepth.Some? ==> SomeExit(g, f, index) && AllExitsAt(g, f, exitDepth, index)
      invariant !compatible ==> SomeExit(g, f, index) && forall d: int :: !AllExitsAt(g, f, Some(d), index)
    {
      if CountedExit(g, f, index) {
        var depth := ExitDepth(g, f.depth, index);
        balanced := balanced && depth == Some(0);
        if exitDepth.None? && depth.Some? {
          exitDepth := depth;
        } else if !(exitDepth.Some? && exitDepth == depth) {
          compatible := false;
        }
      }
    }
    delta := if compatible && exitDepth.Some? && -128 <= exitDepth.value < 128 then exitDepth else None;
  }

  /**
   * The whole analysis. The sweeps need not settle, so the loop gets a limit; None is an analysis still running.
   * Bytes that do not decode are assumed to take in and clobber everything.
   */
  method Analyze(bytes: seq<byte>, targets: map<nat, nat>, limit: nat) returns (r: Option<Summary>, ghost sweeps: nat)
    ensures GraphOf(bytes, targets).None? ==>
      && r.Some? && (forall reg: Register :: Has(r.value.incoming, reg) && Has(r.value.clobbers, reg))
      && r.value.stackDelta.None? && !r.value.balanced
    ensures GraphOf(bytes, targets).Some? ==>
      var g := GraphOf(bytes, targets).value;
      && WellFormed(g) && sweeps <= limit
      && (r.Some? ==> After(g, sweeps + 1) == After(g, sweeps) && Summarizes(g, After(g, sweeps), r.value))
      && (r.None? ==> forall n :: 0 < n <= limit ==> After(g, n) != After(g, n - 1))
  {
    hide GraphOf, After, Summarizes, WellFormed, Sweep, ReadsSummed, WritesSummed, CommonDepth, Balanced, Tiles,
         FlowFor;
    sweeps := 0;
    var built := BuildGraph(bytes, targets);
    if built.None? {
      return Some(UNKNOWN), 0;
    }
    var g := built.value;
    GraphWellFormed(bytes, targets);
    var f, settled;
    f, settled, sweeps := Settle(g, limit);
    if !settled {
      return None, sweeps;
    }
    SettledAfter(g, f, sweeps);
    var incoming, clobbers := SumRegisters(g, f);
    var delta, balanced := SumExits(g, f);
    r := Some(Summary(incoming, clobbers, delta, balanced));
    SummaryOf(g, f, r.value);
  }

  lemma SettledAfter(g: Graph, f: Flow, n: nat)
    requires WellFormed(g) && FlowFor(g, f) && f == After(g, n) && Sweep(g, f) == f
    ensures After(g, n + 1) == f
  {
    hide Sweep;
  }

  lemma SummaryOf(g: Graph, f: Flow, s: Summary)
    requires WellFormed(g) && FlowFor(g, f)
    requires ReadsSummed(g, f, s.incoming, |g.prog|) && WritesSummed(g, f, s.clobbers, |g.prog|)
    requires CommonDepth(g, f, s.stackDelta) && s.balanced == Balanced(g, f)
    ensures Summarizes(g, f, s)
  {
  }
}
