/** The division routines as the assembler delivers them: accepted, with one address left open, and dividing. */
module DivisionBlock {
  import opened Wrappers
  import opened Isa
  import opened Cpu
  import opened HelperText
  import opened HelperBytes
  import A = Assembler
  import C = ConstExpr
  import D = Division
  import N = NarrowDivision
  import Layout = AsmLayout
  import Accept = AsmAccept
  import Flow = AsmGraph
  import Sweeps = AsmSweep
  import Depth = AsmDepth
  import Stack = AsmStack
  import M = AsmLockstep

  // ----- the checks after assembly -----

  lemma {:induction false} LineOfInstruction(code: seq<D.Line>, i: nat, n: nat) returns (k: nat)
    requires n <= |code| && i < Count(code, n)
    ensures k < n && !code[k].Label? && Count(code, k) == i
    decreases n
  {
    if !code[n - 1].Label? && i == Count(code, n - 1) { k := n - 1; } else { k := LineOfInstruction(code, i, n - 1); }
  }

  /** No instruction of the routines touches the stack, ends control, or is beyond what the checks follow. */
  predicate Calm(m: Mnemonic) {
    Flow.Delta(m) == Some(0) && !Stack.Terminal(m) && !Accept.Unmodelled(m)
  }

  lemma LineIsCalm(code: seq<D.Line>, k: nat)
    requires k < |code| && !code[k].Label? && Fine(code, k)
    ensures Calm(OpOf(code[k]).mnemonic)
  {
    hide D.Where, OpcodeFor, Decode;
    OpcodeRoundTrip(OpOf(code[k]));
    assert Sensible(OpOf(code[k]));
  }

  lemma InstructionIsCalm(code: seq<D.Line>, chars: map<string, C.i32>, p: A.Program, i: nat)
    requires Neat(code) && IsBlock(code, chars, p) && i < |Instructions(p)|
    ensures Calm(Instructions(p)[i].op.mnemonic)
  {
    hide IsBlock, Count, OffsetOf, Neat, Fine, OpOf, Calm, OperandBytes, Flow.Decoded, Flow.Tiles;
    BlockBytes(code, chars, p);
    var k := LineOfInstruction(code, i, |code|);
    LineEncoded(code, chars, p, k);
    LineIsCalm(code, k);
  }

  ghost predicate GoesOn(g: Flow.Graph, i: nat)
    requires i < |g.succs|
  {
    Flow.Edge(g, i, i + 1)
  }

  ghost predicate CalmGraph(g: Flow.Graph)
    requires Flow.WellFormed(g)
  {
    && g.prog != [] && (forall i :: 0 <= i < |g.prog| ==> Calm(g.prog[i].op.mnemonic))
    && forall i :: 0 <= i < |g.prog| - 1 ==> GoesOn(g, i)
  }

  lemma BlockGraph(code: seq<D.Line>, chars: map<string, C.i32>, p: A.Program) returns (g: Flow.Graph)
    requires Neat(code) && IsBlock(code, chars, p) && Count(code, |code|) > 0
    ensures Flow.GraphOf(p.bytes, Accept.ControlTargets(p.relocs)) == Some(g) && Flow.WellFormed(g)
    ensures g.prog == Instructions(p) && CalmGraph(g)
  {
    hide IsBlock, Count, Neat, Flow.Decoded, Flow.Tiles, Flow.IsExit, Instructions, Accept.ControlTargets,
         Accept.Unmodelled;
    BlockBytes(code, chars, p);
    Flow.GraphWellFormed(p.bytes, Accept.ControlTargets(p.relocs));
    g := Flow.GraphOf(p.bytes, Accept.ControlTargets(p.relocs)).value;
    forall i | 0 <= i < |g.prog| ensures Calm(g.prog[i].op.mnemonic) { InstructionIsCalm(code, chars, p, i); }
    forall i | 0 <= i < |g.prog| - 1
      ensures GoesOn(g, i)
    {
      assert Calm(g.prog[i].op.mnemonic);
      assert g.succs[i] == Flow.Successors(p.bytes, Accept.ControlTargets(p.relocs), g.prog, i);
      assert g.succs[i][0] == i + 1;
    }
  }

  lemma {:induction false} AllReached(g: Flow.Graph, i: nat)
    requires Flow.WellFormed(g) && CalmGraph(g) && i < |g.prog|
    ensures Depth.Reachable(g, i)
  {
    hide Flow.Edge, Depth.Reachable, Calm;
    if i == 0 {
      Depth.ReachEntry(g);
    } else {
      AllReached(g, i - 1);
      assert GoesOn(g, i - 1);
      Depth.ReachStep(g, i - 1, i);
    }
  }

  function Zeros(g: Flow.Graph): seq<int> { seq(|g.prog|, _ => 0) }

  lemma CalmLabels(g: Flow.Graph)
    requires Flow.WellFormed(g) && CalmGraph(g)
    ensures Depth.Labels(g, Zeros(g))
  {
    hide Flow.Edge, Depth.Reachable, Accept.Unmodelled, Stack.Terminal;
  }

  /** Whenever the sweeps have settled, the block is reported balanced; and they do settle. */
  lemma CalmBalanced(g: Flow.Graph, n: nat)
    requires Flow.WellFormed(g) && CalmGraph(g)
    ensures n >= 11 * |g.prog| + 1 ==> Sweeps.After(g, n + 1) == Sweeps.After(g, n)
    ensures Sweeps.After(g, n + 1) == Sweeps.After(g, n) ==> Stack.Balanced(g, Sweeps.After(g, n))
  {
    hide Flow.Edge, Depth.Reachable, Depth.Labels, Sweeps.After;
    CalmLabels(g);
    if n >= 11 * |g.prog| + 1 { Depth.SweepsSettle(g, Zeros(g), n); }
    if Sweeps.After(g, n + 1) == Sweeps.After(g, n) {
      Depth.SettledDepthIsLabelling(g, Zeros(g), n);
      forall i | 0 <= i < |g.prog| ensures Sweeps.After(g, n).depth[i] == Some(0) { AllReached(g, i); }
    }
  }

  /** Assembly never refuses the block, whenever its analysis stops, and stop it does. */
  lemma NeverRefused(code: seq<D.Line>, chars: map<string, C.i32>, p: A.Program, sweeps: nat)
    requires Neat(code) && IsBlock(code, chars, p) && Count(code, |code|) > 0
    ensures !Accept.Refusable(p, sweeps)
    ensures var g := Flow.GraphOf(p.bytes, Accept.ControlTargets(p.relocs));
      g.Some? && Flow.WellFormed(g.value)
      && (sweeps >= 11 * |p.table.code| + 1 ==> Sweeps.After(g.value, sweeps + 1) == Sweeps.After(g.value, sweeps))
  {
    hide IsBlock, Count, Neat, Sweeps.After, Stack.Balanced, Flow.GraphOf, Flow.WellFormed;
    var g := BlockGraph(code, chars, p);
    CalmBalanced(g, sweeps);
    forall i | 0 <= i < |p.table.code|
      ensures !Accept.Unmodelled(p.table.code[i].mnemonic)
    {
      assert Calm(g.prog[i].op.mnemonic);
    }
  }

  // ----- the one address left open -----

  lemma NoCalls(code: seq<D.Line>)
    ensures Calls(code, 0) == []
  {
  }

  lemma {:induction false} OnlyCall(code: seq<D.Line>, at: nat, n: nat)
    requires OneCall(code, at) && n <= |code|
    ensures Calls(code, n) == if at < n then [ErrorReloc(OffsetOf(code, at))] else []
  {
    hide OffsetOf, ErrorReloc, Calls;
    if n > 0 {
      OnlyCall(code, at, n - 1);
      CallsOn(code, n - 1);
    } else {
      NoCalls(code);
    }
  }

  /** The block assembles, is not refused, and leaves open exactly one address: the operand of its call of Error. */
  ghost predicate Delivered(code: seq<D.Line>, chars: map<string, C.i32>, p: A.Program, at: nat) {
    && IsBlock(code, chars, p) && (forall sweeps :: !Accept.Refusable(p, sweeps))
    && at < |Instructions(p)| && Instructions(p)[at].op == Op(JSR, Absolute)
    && Pending(p.relocs) == [ErrorReloc(Instructions(p)[at].offset)]
  }

  lemma Deliver(code: seq<D.Line>, chars: map<string, C.i32>, line: nat) returns (p: A.Program)
    requires Neat(code) && OneCall(code, line)
    ensures Delivered(code, chars, p, Count(code, line)) && PlaceOf(code, line) == M.Inside(Count(code, line))
  {
    hide OffsetOf, Neat, OperandBytes, Fine, Accept.Refusable, Count, Pending, TableOf, Layout.Accepted,
         Layout.NoneWide, ErrorReloc;
    p := TextAssembles(code, chars);
    OnlyCall(code, line, |code|);
    assert code[line].CallError?;
    LineEncoded(code, chars, p, line);
    OnwardIs(code, chars, p, line);
    forall sweeps ensures !Accept.Refusable(p, sweeps) { NeverRefused(code, chars, p, sweeps); }
  }

  lemma AtTheEnds(code: seq<D.Line>, line: nat, s: State)
    requires OneCall(code, line)
    ensures Start(code, s) == M.Config(M.Inside(0), s) && PlaceOf(code, |code|) == M.Outside
  {
    CountGrows(code, line + 1, |code|);
  }

  // ----- what the delivered blocks do -----

  /** The unsigned word routine, byte by byte: quotient and remainder of what A:X and $84:$85 hold. */
  lemma UnsignedBytesDivide(remainder: bool, both: bool, chars: map<string, C.i32>, s: State)
    returns (p: A.Program, t: State)
    requires D.Word(s.mem, 0x84) > 0
    ensures exists at :: Delivered(D.Body(false, remainder, both), chars, p, at)
    ensures Runs(p, M.Config(M.Inside(0), s), M.Config(M.Outside, t))
    ensures D.AX(t) == if remainder then D.AX(s) % D.Word(s.mem, 0x84) else D.AX(s) / D.Word(s.mem, 0x84)
    ensures D.Word(t.mem, 0x82) == D.AX(s) / D.Word(s.mem, 0x84) && D.Word(t.mem, 0x86) == D.AX(s) % D.Word(s.mem, 0x84)
    ensures t.y == s.y && D.Frame(s.(d := false), t, D.Scratch(false))
  {
    hide Neat, Delivered, Runs, D.Body, D.Reaches, D.Word, D.Frame, PlaceOf, IsBlock;
    var code := D.Body(false, remainder, both);
    BodyIsNeat(false, remainder, both);
    p := Deliver(code, chars, 9);
    t := D.UnsignedDivision(remainder, both, s);
    DeliveredIsBlock(code, chars, p, Count(code, 9));
    AtTheEnds(code, 9, s);
    BytesReach(code, chars, p, s, D.Config(|code|, t));
  }

  lemma DeliveredIsBlock(code: seq<D.Line>, chars: map<string, C.i32>, p: A.Program, at: nat)
    requires Delivered(code, chars, p, at)
    ensures IsBlock(code, chars, p)
  {
  }

  /** The signed word routine, byte by byte. */
  lemma SignedBytesDivide(remainder: bool, both: bool, chars: map<string, C.i32>, s: State)
    returns (p: A.Program, t: State)
    requires D.Word(s.mem, 0x84) > 0 && !(remainder && both)
    ensures exists at :: Delivered(D.Body(true, remainder, both), chars, p, at)
    ensures Runs(p, M.Config(M.Inside(0), s), M.Config(M.Outside, t))
    ensures var n, d := D.Signed(D.AX(s)), D.Signed(D.Word(s.mem, 0x84));
      && d != 0
      && D.AX(t) == D.ToWord(if remainder then D.Remainder(n, d) else D.Quotient(n, d))
      && (both ==> D.Word(t.mem, 0x86) == D.ToWord(D.Remainder(n, d)))
    ensures t.y == s.y && D.Frame(s.(d := false), t, D.Scratch(true))
  {
    hide Neat, Delivered, Runs, D.Body, D.Reaches, D.Word, D.Frame, PlaceOf, IsBlock, D.Quotient, D.Remainder, D.ToWord;
    var code := D.Body(true, remainder, both);
    BodyIsNeat(true, remainder, both);
    p := Deliver(code, chars, 9);
    t := D.SignedDivision(remainder, both, s);
    DeliveredIsBlock(code, chars, p, Count(code, 9));
    AtTheEnds(code, 9, s);
    BytesReach(code, chars, p, s, D.Config(|code|, t));
  }

  /** The byte-divisor routines, byte by byte. */
  lemma NarrowBytesDivide(word: bool, remainder: bool, chars: map<string, C.i32>, s: State)
    returns (p: A.Program, t: State)
    requires N.Divisor(word, s) > 0
    ensures exists at :: Delivered(N.NarrowBody(word, remainder), chars, p, at)
    ensures Runs(p, M.Config(M.Inside(0), s), M.Config(M.Outside, t))
    ensures remainder ==> t.a == N.Dividend(word, s) % N.Divisor(word, s)
    ensures !remainder ==> (if word then D.AX(t) else t.a as int) == N.Dividend(word, s) / N.Divisor(word, s)
    ensures t.y == s.y && D.Frame(s.(d := false), t, if word then {0x82, 0x83, 0x86} else {0x82, 0x84, 0x86})
  {
    hide Neat, Delivered, Runs, N.NarrowBody, D.Reaches, D.Word, D.Frame, PlaceOf, IsBlock, N.Dividend, N.Divisor;
    var code := N.NarrowBody(word, remainder);
    NarrowBodyIsNeat(word, remainder);
    p := Deliver(code, chars, 8);
    t := N.NarrowDivisionCorrect(word, remainder, s);
    DeliveredIsBlock(code, chars, p, Count(code, 8));
    AtTheEnds(code, 8, s);
    BytesReach(code, chars, p, s, D.Config(|code|, t));
  }

  /** With a zero divisor the bytes run to the one call whose address is open, with the fault code in A and Y. */
  lemma ZeroDivisorBytesCall(signed: bool, remainder: bool, both: bool, chars: map<string, C.i32>, s: State)
    returns (p: A.Program, t: State, at: nat)
    requires D.Word(s.mem, 0x84) == 0
    ensures Delivered(D.Body(signed, remainder, both), chars, p, at)
    ensures Runs(p, M.Config(M.Inside(0), s), M.Config(M.Inside(at), t))
    ensures t.a == 101 && t.x == 0 && t.y == 101
      && D.Frame(s.(d := false), t, {0x82, 0x83})
  {
    hide Neat, Delivered, Runs, D.Body, D.Reaches, D.Word, D.Frame, PlaceOf, IsBlock;
    var code := D.Body(signed, remainder, both);
    BodyIsNeat(signed, remainder, both);
    p := Deliver(code, chars, 9);
    at := Count(code, 9);
    t := D.ZeroDivisorCallsError(signed, remainder, both, s);
    DeliveredIsBlock(code, chars, p, at);
    AtTheEnds(code, 9, s);
    BytesReach(code, chars, p, s, D.Config(9, t));
  }

  lemma NarrowZeroBytesCall(word: bool, remainder: bool, chars: map<string, C.i32>, s: State)
    returns (p: A.Program, t: State, at: nat)
    requires N.Divisor(word, s) == 0
    ensures Delivered(N.NarrowBody(word, remainder), chars, p, at)
    ensures Runs(p, M.Config(M.Inside(0), s), M.Config(M.Inside(at), t))
    ensures t.a == 101 && t.x == 0 && t.y == 101
    ensures D.Frame(s.(d := false), t, if word then {0x82, 0x83} else {0x82, 0x84})
  {
    hide Neat, Delivered, Runs, N.NarrowBody, D.Reaches, D.Frame, PlaceOf, IsBlock, N.Divisor;
    var code := N.NarrowBody(word, remainder);
    NarrowBodyIsNeat(word, remainder);
    p := Deliver(code, chars, 8);
    at := Count(code, 8);
    t := N.NarrowZeroCallsError(word, remainder, s);
    DeliveredIsBlock(code, chars, p, at);
    AtTheEnds(code, 8, s);
    BytesReach(code, chars, p, s, D.Config(8, t));
  }

  // ----- the bytes do nothing else -----

  /** Lines at which the model of lines stands still although the bytes would go on. */
  predicate Stuck(code: seq<D.Line>, d: D.Config) {
    d.pc < |code| && (code[d.pc].CallError? || D.Blocked(code[d.pc], d.cpu))
  }

  function RunOf(p: A.Program, c: M.Config, k: nat): M.Config
    requires M.Fits(p.bytes, Instructions(p))
  {
    M.Run(p.bytes, Accept.ControlTargets(p.relocs), Instructions(p), c, k)
  }

  /** Passing the labels in front of an instruction takes steps, but none on bytes. */
  lemma {:induction false} PassLabels(code: seq<D.Line>, c: D.Config, n: nat) returns (m: nat)
    requires D.Steps(code, c, n).pc <= |code|
    ensures var d, e := D.Steps(code, c, n), D.Steps(code, c, m);
      d.pc <= e.pc <= |code| && e.cpu == d.cpu && PlaceOf(code, e.pc) == PlaceOf(code, d.pc)
        && (e.pc < |code| ==> !code[e.pc].Label?)
    decreases |code| - D.Steps(code, c, n).pc
  {
    hide D.Where, Exec;
    var d := D.Steps(code, c, n);
    m := n;
    if d.pc < |code| && code[d.pc].Label? {
      assert D.Steps(code, c, n + 1) == D.Config(d.pc + 1, d.cpu);
      assert Count(code, d.pc + 1) == Count(code, d.pc);
      m := PassLabels(code, c, n + 1);
    }
  }

  /** After `k` steps of the bytes the lines, `n` steps on, are where the bytes are, unless they stand still by then. */
  ghost predicate Followed(code: seq<D.Line>, p: A.Program, c: D.Config, k: nat, n: nat) {
    && M.Fits(p.bytes, Instructions(p)) && c.pc <= |code|
    && var d := D.Steps(code, c, n);
       d.pc <= |code|
         && (Stuck(code, d) || RunOf(p, M.Config(PlaceOf(code, c.pc), c.cpu), k) == M.Config(PlaceOf(code, d.pc), d.cpu))
  }

  lemma ByteStep(code: seq<D.Line>, chars: map<string, C.i32>, p: A.Program, c: D.Config, k: nat, n: nat)
    returns (m: nat)
    requires Neat(code) && IsBlock(code, chars, p) && Followed(code, p, c, k, n)
    ensures Followed(code, p, c, k + 1, m)
  {
    hide IsBlock, OffsetOf, Neat, Exec, Taken, D.Where, M.Step, Accept.ControlTargets, Instructions, M.Fits, PlaceOf,
         D.Blocked;
    m := n;
    if !Stuck(code, D.Steps(code, c, n)) {
      m := PassLabels(code, c, n);
      var d := D.Steps(code, c, m);
      if d.pc == |code| {
        OutsideStays(code, p, d.cpu);
      } else if !Stuck(code, d) {
        if code[d.pc].Data? {
          DataMatches(code, chars, p, d.pc, d.cpu);
        } else {
          BranchMatches(code, chars, p, d.pc, d.cpu);
        }
        m := m + 1;
        assert D.Steps(code, c, m) == D.Step(code, d);
      }
    }
  }

  lemma OutsideStays(code: seq<D.Line>, p: A.Program, s: State)
    requires M.Fits(p.bytes, Instructions(p))
    ensures var c := M.Config(PlaceOf(code, |code|), s);
      M.Step(p.bytes, Accept.ControlTargets(p.relocs), Instructions(p), c) == c
  {
  }

  lemma FollowedFirst(code: seq<D.Line>, p: A.Program, c: D.Config)
    requires c.pc <= |code| && M.Fits(p.bytes, Instructions(p))
    ensures Followed(code, p, c, 0, 0)
  {
    hide Stuck, PlaceOf, Instructions, M.Fits, M.Step, D.Step;
  }

  /** Every run of the bytes is a run of the lines, up to where those stand still. */
  lemma {:induction false} LinesFollowBytes(code: seq<D.Line>, chars: map<string, C.i32>, p: A.Program, c: D.Config,
      k: nat)
    returns (n: nat)
    requires Neat(code) && IsBlock(code, chars, p) && c.pc <= |code|
    ensures Followed(code, p, c, k, n)
    decreases k
  {
    hide IsBlock, Neat, Followed, M.Fits;
    if k == 0 {
      BlockBytes(code, chars, p);
      FollowedFirst(code, p, c);
      n := 0;
    } else {
      n := LinesFollowBytes(code, chars, p, c, k - 1);
      n := ByteStep(code, chars, p, c, k - 1, n);
    }
  }

  /** The delivered call is the one line that calls. */
  lemma DeliveredAt(code: seq<D.Line>, chars: map<string, C.i32>, p: A.Program, at: nat, line: nat)
    requires Neat(code) && OneCall(code, line) && Delivered(code, chars, p, at)
    ensures at == Count(code, line)
  {
    hide OffsetOf, Neat, Accept.Refusable, Count, Pending, TableOf, Layout.Accepted, Layout.NoneWide, ErrorReloc,
         OperandBytes, Encodable, D.Where,
         Flow.Decoded, Flow.Tiles;
    BlockBytes(code, chars, p);
    var k := LineOfInstruction(code, at, |code|);
    LineEncoded(code, chars, p, k);
    assert code[k].CallError?;
  }

  /** The guard behind the call: four instructions, a label, and the branch back to it. */
  ghost predicate Guarded(code: seq<D.Line>, call: nat) {
    call >= 3 && D.Placed(code, call - 3, D.FaultLines(D.DIVISION_BY_ZERO))
  }

  lemma GuardedHead(code: seq<D.Line>)
    ensures D.Placed(code, 0, D.Head()) ==> Guarded(code, 9)
    ensures D.Placed(code, 0, N.NarrowHead(true)) || D.Placed(code, 0, N.NarrowHead(false)) ==> Guarded(code, 8)
  {
    var fault, word, byte_ := D.Head(), N.NarrowHead(true), N.NarrowHead(false);
    var lines := D.FaultLines(D.DIVISION_BY_ZERO);
    forall j | 0 <= j < |lines| ensures fault[6 + j] == lines[j] && word[5 + j] == lines[j] && byte_[5 + j] == lines[j] { }
    hide D.Head, N.NarrowHead, D.FaultLines;
    if D.Placed(code, 0, fault) {
      forall j | 0 <= j < |lines| ensures code[6 + j] == lines[j] { assert code[0 + (6 + j)] == fault[6 + j]; }
    }
    if D.Placed(code, 0, word) {
      forall j | 0 <= j < |lines| ensures code[5 + j] == lines[j] { assert code[0 + (5 + j)] == word[5 + j]; }
    }
    if D.Placed(code, 0, byte_) {
      forall j | 0 <= j < |lines| ensures code[5 + j] == lines[j] { assert code[0 + (5 + j)] == byte_[5 + j]; }
    }
  }

  lemma GuardLine(code: seq<D.Line>, call: nat, j: nat)
    requires Guarded(code, call) && j < 10
    ensures call + 7 <= |code| && code[call - 3 + j] == D.FaultLines(D.DIVISION_BY_ZERO)[j]
  {
    hide D.FaultLines;
    assert |D.FaultLines(D.DIVISION_BY_ZERO)| == 10 by { GuardLength(); }
  }

  lemma GuardLength()
    ensures |D.FaultLines(D.DIVISION_BY_ZERO)| == 10
  {
  }

  lemma GuardPlaces(code: seq<D.Line>, call: nat, j: nat)
    requires Guarded(code, call) && 1 <= j <= 6
    ensures call + 7 <= |code| && PlaceOf(code, call + j) == M.Inside(Count(code, call) + if j < 5 then j else 5)
  {
    GuardLine(code, call, 3);
    GuardLine(code, call, 4);
    GuardLine(code, call, 5);
    GuardLine(code, call, 6);
    GuardLine(code, call, 7);
    GuardLine(code, call, 8);
    GuardLine(code, call, 9);
    hide Guarded;
    CountGrows(code, call + 7, |code|);
    var c := Count(code, call);
    assert Count(code, call + 1) == c + 1 && Count(code, call + 2) == c + 2 && Count(code, call + 3) == c + 3;
    assert Count(code, call + 4) == c + 4 && Count(code, call + 5) == c + 5 && Count(code, call + 6) == c + 5;
    assert Count(code, call + 7) == c + 6;
  }

  lemma GuardRuns(code: seq<D.Line>, call: nat, j: nat, s: State)
    requires Guarded(code, call) && 1 <= j <= 6
    ensures call + j < |code| && !Stuck(code, D.Config(call + j, s))
  {
    GuardLine(code, call, 3 + j);
  }

  /** If the lines stay in the guard, so do the bytes. */
  lemma GuardHolds(code: seq<D.Line>, chars: map<string, C.i32>, p: A.Program, at: nat, call: nat, e: State, k: nat,
      n: nat)
    requires Neat(code) && OneCall(code, call) && Delivered(code, chars, p, at) && Guarded(code, call)
    requires Followed(code, p, D.Config(call + 1, e), k, n)
    requires call + 1 <= D.Steps(code, D.Config(call + 1, e), n).pc <= call + 6
    ensures M.Fits(p.bytes, Instructions(p))
    ensures var place := RunOf(p, M.Config(M.Inside(at + 1), e), k).place; place.Inside? && at < place.index <= at + 5
  {
    hide Neat, PlaceOf, IsBlock, D.Step, Delivered, Instructions, M.Fits, RunOf, Count, Stuck, D.Where, Guarded,
         OneCall;
    DeliveredAt(code, chars, p, at, call);
    GuardPlaces(code, call, 1);
    var d := D.Steps(code, D.Config(call + 1, e), n);
    GuardRuns(code, call, d.pc - call, d.cpu);
    GuardPlaces(code, call, d.pc - call);
  }

  /**
   * Whatever state Error returns with, the bytes behind the call never leave the guard, five instructions from there.
   */
  lemma FaultBytesNeverReturn(signed: bool, remainder: bool, both: bool, chars: map<string, C.i32>, p: A.Program,
      at: nat, e: State, k: nat)
    requires Delivered(D.Body(signed, remainder, both), chars, p, at)
    ensures M.Fits(p.bytes, Instructions(p))
    ensures var place := RunOf(p, M.Config(M.Inside(at + 1), e), k).place; place.Inside? && at < place.index <= at + 5
  {
    hide Neat, D.Body, IsBlock, D.Steps, D.Placed, Delivered, Instructions, M.Fits, RunOf, D.Where, Guarded, OneCall,
         Followed;
    var code := D.Body(signed, remainder, both);
    BodyIsNeat(signed, remainder, both);
    DeliveredIsBlock(code, chars, p, at);
    D.LayoutHead(signed, remainder, both);
    GuardedHead(code);
    OneCallInside(code, 9);
    var n := LinesFollowBytes(code, chars, p, D.Config(10, e), k);
    D.FaultNeverReturns(signed, remainder, both, e, n);
    GuardHolds(code, chars, p, at, 9, e, k, n);
  }

  lemma OneCallInside(code: seq<D.Line>, call: nat)
    requires OneCall(code, call)
    ensures call + 1 <= |code|
  {
  }

  lemma NarrowFaultBytesNeverReturn(word: bool, remainder: bool, chars: map<string, C.i32>, p: A.Program, at: nat,
      e: State, k: nat)
    requires Delivered(N.NarrowBody(word, remainder), chars, p, at)
    ensures M.Fits(p.bytes, Instructions(p))
    ensures var place := RunOf(p, M.Config(M.Inside(at + 1), e), k).place; place.Inside? && at < place.index <= at + 5
  {
    hide Neat, N.NarrowBody, IsBlock, D.Steps, D.Placed, Delivered, Instructions, M.Fits, RunOf, D.Where, Guarded,
         OneCall, Followed;
    var code := N.NarrowBody(word, remainder);
    NarrowBodyIsNeat(word, remainder);
    DeliveredIsBlock(code, chars, p, at);
    N.NarrowLayout(word, remainder);
    GuardedHead(code);
    OneCallInside(code, 8);
    var n := LinesFollowBytes(code, chars, p, D.Config(9, e), k);
    N.NarrowFaultNeverReturns(word, remainder, e, n);
    GuardHolds(code, chars, p, at, 8, e, k, n);
  }
}
