/** The byte-divisor routines: byte by byte, and word by byte. */
module NarrowDivision {
  import opened Bits
  import opened Isa
  import opened Cpu
  import opened Division
  import R = Restoring

  function NarrowHead(word: bool): seq<Line> {
    [Bare(CLD), Zp(STA, 0x82), Zp(STX, if word then 0x83 else 0x84), Zp(LDA, 0x84), Branch(BNE, Nonzero)]
    + FaultLines(DIVISION_BY_ZERO) + [Label(Nonzero)]
  }

  function NarrowSetup(word: bool): seq<Line> {
    [Imm(LDA, 0), Zp(STA, 0x86), Imm(LDX, if word then 16 else 8)]
  }

  function NarrowShift(word: bool): seq<Line> {
    [Label(DivideLoop), Zp(ASL, 0x82)] + if word then [Zp(ROL, 0x83)] else []
  }

  function NarrowRest(): seq<Line> {
    [Zp(ROL, 0x86), Branch(BCS, SubtractAt), Zp(LDA, 0x86), Zp(CMP, 0x84), Branch(BCC, Next),
     Label(SubtractAt), Bare(SEC), Zp(LDA, 0x86), Zp(SBC, 0x84), Zp(STA, 0x86), Zp(INC, 0x82),
     Label(Next), Bare(DEX), Branch(BNE, DivideLoop)]
  }

  function NarrowResult(word: bool, remainder: bool): seq<Line> {
    [Zp(LDA, if remainder then 0x86 else 0x82)] + if word && !remainder then [Zp(LDX, 0x83)] else []
  }

  function NarrowBody(word: bool, remainder: bool): seq<Line> {
    NarrowHead(word) + NarrowSetup(word) + NarrowShift(word) + NarrowRest() + NarrowResult(word, remainder)
  }

  method NarrowDivisionBody(word: bool, remainder: bool) returns (source: seq<Line>)
    ensures source == NarrowBody(word, remainder)
  {
    source := [Bare(CLD), Zp(STA, 0x82)];
    if word {
      source := source + [Zp(STX, 0x83)];
    } else {
      source := source + [Zp(STX, 0x84)];
    }
    source := source + [Zp(LDA, 0x84), Branch(BNE, Nonzero)] + FaultLines(DIVISION_BY_ZERO) + [Label(Nonzero)];
    assert source == NarrowHead(word);
    source := source + [Imm(LDA, 0), Zp(STA, 0x86)];
    source := source + (if word then [Imm(LDX, 16)] else [Imm(LDX, 8)]);
    assert source == NarrowHead(word) + NarrowSetup(word);
    source := source + [Label(DivideLoop), Zp(ASL, 0x82)];
    if word {
      source := source + [Zp(ROL, 0x83)];
    }
    assert source == NarrowHead(word) + NarrowSetup(word) + NarrowShift(word);
    source := source + NarrowRest();
    source := source + NarrowResult(word, remainder);
  }

  function Width(word: bool): nat { if word then 16 else 8 }

  /** The dividend register: a word or a byte. */
  function Register(word: bool, m: Memory): nat {
    if word then Word(m, 0x82) else Cell(m, 0x82)
  }

  /** Index of the shift, and of what follows it. */
  const SHIFT_AT := 19

  function RestAt(word: bool): nat { if word then 22 else 21 }

  ghost predicate Laid(code: seq<Line>, word: bool) {
    && Placed(code, SHIFT_AT, NarrowShift(word)) && Placed(code, RestAt(word), NarrowRest())
    && Where(code, DivideLoop) == SHIFT_AT && Where(code, SubtractAt) == RestAt(word) + 5
    && Where(code, Next) == RestAt(word) + 11
  }

  lemma NarrowShiftEffect(word: bool, s: State)
    returns (states: seq<State>, t: State)
    ensures |states| == (if word then 4 else 3) && states[0] == s && states[|states| - 1] == t
    ensures forall j :: 0 <= j < |states| - 1 ==> states[j + 1] == ExecLine(NarrowShift(word)[j], states[j])
    ensures t.x == s.x && t.y == s.y && Frame(s, t, {0x82, 0x83})
    ensures !word ==> t.mem[0x83] == s.mem[0x83]
    ensures t.mem[0x82] % 2 == 0
    ensures Register(word, t.mem) + (if word then 0x10000 else 0x100) * Carry(t.c) == 2 * Register(word, s.mem)
  {
    hide Exec;
    t := AslCell(s, 0x82);
    states := [s, s, t];
    if word {
      var u := t;
      t := RolCell(u, 0x83);
      states := [s, s, u, t];
    }
  }

  /** The remainder byte with its ninth bit. */
  function Wide8(s: State): nat { 0x100 * Carry(s.c) + Cell(s.mem, 0x86) }

  lemma NarrowSubtract(s: State)
    returns (states: seq<State>, t: State, borrow: nat)
    requires s.mem[0x82] % 2 == 0 && !s.d
    ensures |states| == 7 && states[0] == s && states[6] == t
    ensures forall j :: 0 <= j < 6 ==> states[j + 1] == ExecLine(NarrowRest()[5 + j], states[j])
    ensures forall j :: 0 <= j < 6 ==> !states[j].d
    ensures t.x == s.x && t.y == s.y && Frame(s, t, {0x82, 0x86})
    ensures Cell(t.mem, 0x82) == Cell(s.mem, 0x82) + 1
    ensures Cell(t.mem, 0x86) == Cell(s.mem, 0x86) - Cell(s.mem, 0x84) + 0x100 * borrow
  {
    hide Exec;
    ClearSet(s);
    var s1 := s.(c := true);
    Lda(s1, 0x86);
    var a1, a2, a := ByteDifference(s1, Zp(LDA, 0x86), s1.mem[0x86], 0x84, 0x86);
    Inc(a, 0x82);
    t := ExecLine(Zp(INC, 0x82), a);
    states := [s, s, s1, a1, a2, a, t];
    borrow := Carry(!a.c);
  }

  /** From the rotation of the remainder to the line after the subtraction. */
  lemma NarrowCompare(code: seq<Line>, at: nat, s: State)
    returns (t: State)
    requires Placed(code, at, NarrowRest()) && Where(code, SubtractAt) == at + 5 && Where(code, Next) == at + 11
    ensures t.x == s.x && t.y == s.y && t.mem == s.mem && t.sp == s.sp && t.d == s.d
    ensures Reaches(code, Config(at + 1, s), Config(if Wide8(s) >= Cell(s.mem, 0x84) then at + 5 else at + 11, t))
  {
    hide Exec, Taken, Reaches, Steps, Where;
    var start := Config(at + 1, s);
    ReachesHere(code, start);
    assert code[at + 1] == NarrowRest()[1] && code[at + 4] == NarrowRest()[4];
    TakenIs(s);
    BranchStep(code, start, at + 1, s);
    t := s;
    if !s.c {
      Lda(s, 0x86);
      var s1 := SetA(s, s.mem[0x86]);
      Cmp(s1, 0x84);
      t := Compare(s1, s1.a, s1.mem[0x84]);
      Straight(code, at, NarrowRest(), 2, [s, s1, t]);
      ReachesTrans(code, start, Config(at + 2, s), Config(at + 4, t));
      TakenIs(t);
      BranchStep(code, start, at + 4, t);
    }
  }

  /** Shifting the register and rotating its top bit into the remainder. */
  lemma NarrowRotate(code: seq<Line>, word: bool, s: State)
    returns (t: State)
    requires Laid(code, word)
    ensures Reaches(code, Config(SHIFT_AT, s), Config(RestAt(word) + 1, t))
    ensures t.x == s.x && t.y == s.y && Frame(s, t, {0x82, 0x83, 0x86}) && (!word ==> t.mem[0x83] == s.mem[0x83])
    ensures t.mem[0x82] % 2 == 0
    ensures var full := if word then 0x10000 else 0x100;
      var bit := R.Bit(2 * Register(word, s.mem) >= full);
      Register(word, t.mem) == 2 * Register(word, s.mem) - full * bit && Wide8(t) == 2 * Cell(s.mem, 0x86) + bit
  {
    hide Exec, Reaches, Steps, Where;
    var states, s1;
    states, s1 := NarrowShiftEffect(word, s);
    Straight(code, SHIFT_AT, NarrowShift(word), 0, states);
    t := RolCell(s1, 0x86);
    Straight(code, RestAt(word), NarrowRest(), 0, [s1, t]);
    ReachesTrans(code, Config(SHIFT_AT, s), Config(RestAt(word), s1), Config(RestAt(word) + 1, t));
  }

  lemma TopBitOf(word: bool, m: Memory)
    ensures var full := if word then 0x10000 else 0x100;
      2 * Register(word, m) >= full <==> Register(word, m) >= Pow2(Width(word) - 1)
    ensures Pow2(Width(word)) == (if word then 0x10000 else 0x100) && Register(word, m) < Pow2(Width(word))
  {
    Pow2Values();
  }

  /** Rotation, comparison and, where it is due, subtraction; `s2` is the machine after the rotation. */
  lemma NarrowPassRun(code: seq<Line>, word: bool, s: State)
    returns (s2: State, t: State, borrow: nat)
    requires Laid(code, word) && !s.d
    ensures Reaches(code, Config(SHIFT_AT, s), Config(RestAt(word) + 11, t))
    ensures t.x == s.x && t.y == s.y && Frame(s, t, {0x82, 0x83, 0x86}) && (!word ==> t.mem[0x83] == s.mem[0x83])
    ensures var full := if word then 0x10000 else 0x100;
      var bit := R.Bit(2 * Register(word, s.mem) >= full);
      Register(word, s2.mem) == 2 * Register(word, s.mem) - full * bit && Wide8(s2) == 2 * Cell(s.mem, 0x86) + bit
    ensures Wide8(s2) >= Cell(s.mem, 0x84) ==>
      Register(word, t.mem) == Register(word, s2.mem) + 1
          && Cell(t.mem, 0x86) == Cell(s2.mem, 0x86) - Cell(s.mem, 0x84) + 0x100 * borrow
    ensures Wide8(s2) < Cell(s.mem, 0x84) ==>
      Register(word, t.mem) == Register(word, s2.mem) && Cell(t.mem, 0x86) == Cell(s2.mem, 0x86)
    ensures borrow <= 1
  {
    hide Exec, Taken, Reaches, Steps, Where, Placed, NarrowShift;
    var start, at := Config(SHIFT_AT, s), RestAt(word);
    s2 := NarrowRotate(code, word, s);
    var s3 := NarrowCompare(code, at, s2);
    var due := Wide8(s2) >= Cell(s2.mem, 0x84);
    ReachesTrans(code, start, Config(at + 1, s2), Config(if due then at + 5 else at + 11, s3));
    t, borrow := s3, 0;
    if due {
      var states;
      states, t, borrow := NarrowSubtract(s3);
      Straight(code, at, NarrowRest(), 5, states);
      ReachesTrans(code, start, Config(at + 5, s3), Config(at + 11, t));
    }
  }

  lemma NarrowPass(code: seq<Line>, word: bool, s: State)
    returns (t: State)
    requires Laid(code, word) && !s.d && s.mem[0x86] < s.mem[0x84]
    ensures Reaches(code, Config(SHIFT_AT, s), Config(RestAt(word) + 11, t))
    ensures t.x == s.x && t.y == s.y && Frame(s, t, {0x82, 0x83, 0x86}) && (!word ==> t.mem[0x83] == s.mem[0x83])
    ensures (Cell(t.mem, 0x86), Register(word, t.mem))
      == R.DivStep(8, Width(word), Cell(s.mem, 0x84), Cell(s.mem, 0x86), Register(word, s.mem))
    ensures t.mem[0x86] < t.mem[0x84]
  {
    hide R.DivStep, Reaches, Where, Laid, Register;
    var s2, borrow;
    s2, t, borrow := NarrowPassRun(code, word, s);
    TopBitOf(word, s.mem);
    Pow2Values();
    hide Pow2;
    var d, r, q, q1 := Cell(s.mem, 0x84), Cell(s.mem, 0x86), Register(word, s.mem), Register(word, s2.mem);
    if word {
      R.IsDivStep(8, 16, d, r, q, Carry(s2.c), Cell(s2.mem, 0x86), q1, Cell(t.mem, 0x86), Register(word, t.mem),
          borrow);
    } else {
      R.IsDivStep(8, 8, d, r, q, Carry(s2.c), Cell(s2.mem, 0x86), q1, Cell(t.mem, 0x86), Register(word, t.mem), borrow);
    }
  }

  lemma {:induction false} NarrowLoop(code: seq<Line>, word: bool, s: State)
    returns (t: State)
    requires Laid(code, word) && !s.d && s.mem[0x86] < s.mem[0x84] && s.x > 0
    ensures Reaches(code, Config(SHIFT_AT, s), Config(RestAt(word) + 14, t))
    ensures t.y == s.y && t.x == 0 && Frame(s, t, {0x82, 0x83, 0x86}) && (!word ==> t.mem[0x83] == s.mem[0x83])
    ensures (Cell(t.mem, 0x86), Register(word, t.mem))
      == R.Divide(8, Width(word), Cell(s.mem, 0x84), Cell(s.mem, 0x86), Register(word, s.mem), s.x)
    decreases s.x
  {
    hide Exec, Taken, R.DivStep, Reaches, Steps, Where;
    var start, at := Config(SHIFT_AT, s), RestAt(word);
    var u := NarrowPass(code, word, s);
    Dex(u);
    t := SetX(u, Wrap(u.x + 255));
    Straight(code, at, NarrowRest(), 11, [u, u, t]);
    ReachesTrans(code, start, Config(at + 11, u), Config(at + 13, t));
    assert code[at + 13] == NarrowRest()[13];
    TakenIs(t);
    BranchStep(code, start, at + 13, t);
    if t.x > 0 {
      var v := t;
      t := NarrowLoop(code, word, v);
      ReachesTrans(code, start, Config(SHIFT_AT, v), Config(at + 14, t));
    }
  }

  // ----- layout -----

  lemma NarrowPieces(word: bool, remainder: bool, name: Name)
    ensures |NarrowHead(word)| == 16 && FirstAt(NarrowHead(word), 15, Nonzero) && FirstAt(NarrowHead(word), 13, Fault)
    ensures |NarrowSetup(word)| == 3 && |NarrowRest()| == 14 && |NarrowShift(word)| == (if word then 3 else 2)
    ensures FirstAt(NarrowShift(word), 0, DivideLoop)
    ensures FirstAt(NarrowRest(), 5, SubtractAt) && FirstAt(NarrowRest(), 11, Next)
    ensures NoLabel(NarrowSetup(word), name)
  {
  }

  lemma NarrowFree(word: bool, name: Name)
    ensures name !in {Nonzero, Fault} ==> NoLabel(NarrowHead(word), name)
    ensures name != DivideLoop ==> NoLabel(NarrowShift(word), name)
  {
  }

  lemma BeforeRest(word: bool, name: Name)
    requires name !in {Nonzero, Fault}
    ensures NoLabel(NarrowHead(word) + NarrowSetup(word), name)
    ensures name != DivideLoop ==> NoLabel(NarrowHead(word) + NarrowSetup(word) + NarrowShift(word), name)
  {
    hide NarrowHead, NarrowSetup, NarrowShift, NoLabel;
    NarrowPieces(word, false, name);
    NarrowFree(word, name);
    NoLabelAppend(NarrowHead(word), NarrowSetup(word), name);
    if name != DivideLoop {
      NoLabelAppend(NarrowHead(word) + NarrowSetup(word), NarrowShift(word), name);
    }
  }

  lemma NarrowRegroup(a: seq<Line>, b: seq<Line>, c: seq<Line>, d: seq<Line>, e: seq<Line>)
    ensures var all := a + b + c + d + e;
      && all == [] + a + (b + c + d + e)
      && all == a + b + (c + d + e)
      && all == (a + b) + c + (d + e)
      && all == (a + b + c) + d + e
      && all == (a + b + c + d) + e + []
  {
  }

  lemma NarrowPlaced(word: bool, remainder: bool)
    ensures var code := NarrowBody(word, remainder);
      && Placed(code, 0, NarrowHead(word)) && Placed(code, 16, NarrowSetup(word))
      && Placed(code, SHIFT_AT, NarrowShift(word)) && Placed(code, RestAt(word), NarrowRest())
      && Placed(code, RestAt(word) + 14, NarrowResult(word, remainder))
      && |code| == RestAt(word) + 14 + |NarrowResult(word, remainder)|
  {
    hide NarrowHead, NarrowSetup, NarrowShift, NarrowRest, NarrowResult, NoLabel, FirstAt, Placed, Where;
    var code := NarrowBody(word, remainder);
    var a, b, c, d, e := NarrowHead(word), NarrowSetup(word), NarrowShift(word), NarrowRest(), NarrowResult(word,
        remainder);
    assert code == a + b + c + d + e;
    NarrowRegroup(a, b, c, d, e);
    hide NarrowBody;
    NarrowPieces(word, remainder, Next);
    PlacedIn(code, [], a, b + c + d + e);
    PlacedIn(code, a, b, c + d + e);
    PlacedIn(code, a + b, c, d + e);
    PlacedIn(code, a + b + c, d, e);
    PlacedIn(code, a + b + c + d, e, []);
  }

  lemma NarrowLayout(word: bool, remainder: bool)
    ensures var code := NarrowBody(word, remainder);
      && Laid(code, word) && Placed(code, 0, NarrowHead(word)) && Placed(code, 16, NarrowSetup(word))
      && Placed(code, RestAt(word) + 14, NarrowResult(word, remainder))
      && |code| == RestAt(word) + 14 + |NarrowResult(word, remainder)|
      && Where(code, Nonzero) == 15 && Where(code, Fault) == 13
  {
    hide NarrowHead, NarrowSetup, NarrowShift, NarrowRest, NarrowResult, NoLabel, FirstAt, Placed, Where;
    NarrowPlaced(word, remainder);
    var code := NarrowBody(word, remainder);
    var a, b, c, d, e := NarrowHead(word), NarrowSetup(word), NarrowShift(word), NarrowRest(), NarrowResult(word,
        remainder);
    assert code == a + b + c + d + e;
    NarrowRegroup(a, b, c, d, e);
    hide NarrowBody;
    NarrowPieces(word, remainder, Next);
    BeforeRest(word, DivideLoop);
    BeforeRest(word, SubtractAt);
    BeforeRest(word, Next);
    assert NoLabel([], Nonzero) && NoLabel([], Fault) by { Nothing(Nonzero); Nothing(Fault); }
    WhereIn(code, [], a, b + c + d + e, 15, Nonzero);
    WhereIn(code, [], a, b + c + d + e, 13, Fault);
    WhereIn(code, a + b, c, d + e, 0, DivideLoop);
    WhereIn(code, a + b + c, d, e, 5, SubtractAt);
    WhereIn(code, a + b + c, d, e, 11, Next);
  }

  lemma Nothing(name: Name)
    ensures NoLabel([], name)
  {
  }

  // ----- the routines as a whole -----

  /** What the caller passes: byte by byte takes A and X, word by byte takes A:X and $84. */
  function Dividend(word: bool, s: State): nat { if word then AX(s) else s.a as int }

  function Divisor(word: bool, s: State): nat { if word then Cell(s.mem, 0x84) else s.x as int }

  lemma NarrowStart(word: bool, s: State)
    returns (states: seq<State>, t: State)
    ensures |states| == 5 && states[0] == s && states[4] == t
    ensures forall j :: 0 <= j < 4 ==> states[j + 1] == ExecLine(NarrowHead(word)[j], states[j])
    ensures t.y == s.y && Frame(s.(d := false), t, if word then {0x82, 0x83} else {0x82, 0x84})
    ensures Register(word, t.mem) == Dividend(word, s) && Cell(t.mem, 0x84) == Divisor(word, s)
    ensures t.z <==> Divisor(word, s) == 0
  {
    hide Exec;
    var cell: byte := if word then 0x83 else 0x84;
    ClearSet(s);
    var s1 := s.(d := false);
    Sta(s1, 0x82);
    var s2 := s1.(mem := s1.mem[0x82 := s1.a]);
    Stx(s2, cell);
    var s3 := s2.(mem := s2.mem[cell := s2.x]);
    Lda(s3, 0x84);
    t := SetA(s3, s3.mem[0x84]);
    states := [s, s1, s2, s3, t];
  }

  /** Storing the operands and testing the divisor. */
  lemma NarrowEntry(word: bool, remainder: bool, s: State)
    returns (t: State)
    ensures Reaches(NarrowBody(word, remainder), Config(0, s), Config(if Divisor(word, s) == 0 then 5 else 16, t))
    ensures t.y == s.y && Frame(s.(d := false), t, if word then {0x82, 0x83} else {0x82, 0x84})
    ensures Register(word, t.mem) == Dividend(word, s) && Cell(t.mem, 0x84) == Divisor(word, s)
  {
    hide Exec, Taken, Where, Frame, NarrowBody;
    var code := NarrowBody(word, remainder);
    NarrowLayout(word, remainder);
    var states;
    states, t := NarrowStart(word, s);
    assert NarrowHead(word)[4] == Branch(BNE, Nonzero) && NarrowHead(word)[15] == Label(Nonzero)
      && |NarrowHead(word)| == 16;
    Straight(code, 0, NarrowHead(word), 0, states);
    assert code[0 + 4] == NarrowHead(word)[4] && code[0 + 15] == NarrowHead(word)[15];
    TakenIs(t);
    BranchStep(code, Config(0, s), 4, t);
    if !t.z {
      ReachesStep(code, Config(0, s), Config(15, t));
    }
  }

  lemma NarrowDivide(word: bool, remainder: bool, s: State)
    returns (t: State)
    requires s.mem[0x84] > 0 && !s.d
    ensures Reaches(NarrowBody(word, remainder), Config(16, s), Config(RestAt(word) + 14, t))
    ensures t.y == s.y && Frame(s, t, {0x82, 0x83, 0x86}) && (!word ==> t.mem[0x83] == s.mem[0x83]) && t.x == 0
    ensures Register(word, t.mem) == Register(word, s.mem) / Cell(s.mem, 0x84)
    ensures Cell(t.mem, 0x86) == Register(word, s.mem) % Cell(s.mem, 0x84)
  {
    hide Exec, Where, NarrowBody, R.Divide, Pow2;
    var code := NarrowBody(word, remainder);
    NarrowLayout(word, remainder);
    LdImm(s, 0);
    var s1 := SetA(s, 0);
    Sta(s1, 0x86);
    var s2 := s1.(mem := s1.mem[0x86 := s1.a]);
    LdImm(s2, Width(word));
    var s3 := SetX(s2, Width(word));
    Straight(code, 16, NarrowSetup(word), 0, [s, s1, s2, s3]);
    t := NarrowLoop(code, word, s3);
    ReachesTrans(code, Config(16, s), Config(19, s3), Config(RestAt(word) + 14, t));
    Pow2Values();
    R.DivisionAtAnyWidth(8, Width(word), Register(word, s.mem), Cell(s.mem, 0x84));
  }

  /**
   * The byte-divisor routines: quotient in A (A:X for a word dividend), remainder in A; for every nonzero
   * divisor the run ends, and only the scratch cells change.
   */
  lemma NarrowDivisionCorrect(word: bool, remainder: bool, s: State)
    returns (t: State)
    requires Divisor(word, s) > 0
    ensures var code := NarrowBody(word, remainder); Reaches(code, Config(0, s), Config(|code|, t))
    ensures remainder ==> t.a == Dividend(word, s) % Divisor(word, s)
    ensures !remainder ==> (if word then AX(t) else t.a as int) == Dividend(word, s) / Divisor(word, s)
    ensures t.y == s.y && Frame(s.(d := false), t, if word then {0x82, 0x83, 0x86} else {0x82, 0x84, 0x86})
  {
    hide Exec, Where, NarrowBody;
    var code := NarrowBody(word, remainder);
    NarrowLayout(word, remainder);
    var s1 := NarrowEntry(word, remainder, s);
    var s2 := NarrowDivide(word, remainder, s1);
    ReachesTrans(code, Config(0, s), Config(16, s1), Config(RestAt(word) + 14, s2));
    var low: byte := if remainder then 0x86 else 0x82;
    Lda(s2, low);
    var s3 := SetA(s2, s2.mem[low]);
    t := s3;
    if word && !remainder {
      Ldx(s3, 0x83);
      t := SetX(s3, s3.mem[0x83]);
      Straight(code, RestAt(word) + 14, NarrowResult(word, remainder), 0, [s2, s3, t]);
    } else {
      Straight(code, RestAt(word) + 14, NarrowResult(word, remainder), 0, [s2, s3]);
    }
    ReachesTrans(code, Config(0, s), Config(RestAt(word) + 14, s2), Config(|code|, t));
  }

  /** A zero divisor calls Error(101, 0, 101). */
  lemma NarrowZeroCallsError(word: bool, remainder: bool, s: State)
    returns (t: State)
    requires Divisor(word, s) == 0
    ensures var code := NarrowBody(word, remainder);
      Reaches(code, Config(0, s), Config(8, t)) && 8 < |code| && code[8] == CallError
    ensures t.a == 101 && t.x == 0 && t.y == 101
    ensures Frame(s.(d := false), t, if word then {0x82, 0x83} else {0x82, 0x84})
  {
    hide Exec, Where, NarrowBody;
    var code := NarrowBody(word, remainder);
    NarrowLayout(word, remainder);
    var u := NarrowEntry(word, remainder, s);
    var states;
    states, t := FaultEffect(u);
    assert |NarrowHead(word)| == 16;
    assert forall j :: 0 <= j < 10 ==> NarrowHead(word)[5 + j] == FaultLines(DIVISION_BY_ZERO)[j];
    Straight(code, 0, NarrowHead(word), 5, states);
    assert code[0 + 8] == NarrowHead(word)[8];
    ReachesTrans(code, Config(0, s), Config(5, u), Config(8, t));
  }

  /** And spins if Error returns. */
  lemma {:induction false} NarrowFaultNeverReturns(word: bool, remainder: bool, e: State, n: nat)
    ensures 9 <= Steps(NarrowBody(word, remainder), Config(9, e), n).pc <= 14
    ensures var c := Steps(NarrowBody(word, remainder), Config(9, e), n); c.pc >= 13 ==> c.cpu.c
    decreases n
  {
    hide Exec, Where, NarrowBody;
    var code := NarrowBody(word, remainder);
    if n > 0 {
      NarrowFaultNeverReturns(word, remainder, e, n - 1);
      var c := Steps(code, Config(9, e), n - 1);
      NarrowLayout(word, remainder);
      assert code[0 + c.pc] == NarrowHead(word)[c.pc];
      ClearSet(c.cpu);
      TakenIs(c.cpu);
    }
  }
}
