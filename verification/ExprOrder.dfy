/** Which operator takes which operands, said of token strings. */
module ExprOrder {
  import opened Wrappers
  import opened ExprParser

  /** The operator tokens and what they build, in six bands from the tightest to the loosest. */
  function Band(i: nat): seq<(Token, BinaryOp)> {
    match i
    case 0 => [(Star, Mul), (Slash, Div), (KwMod, Mod), (KwLsh, Lsh), (KwRsh, Rsh)]
    case 1 => [(PlusSign, Add), (MinusSign, Sub)]
    case 2 => [(Assign, Eq), (NotEqual, Ne), (Less, Lt), (LessEqual, Le), (Greater, Gt), (GreaterEqual, Ge)]
    case 3 => [(KwAnd, And)]
    case 4 => [(KwOr, Or)]
    case 5 => [(KwXor, Xor)]
    case _ => []
  }

  predicate InBand(i: nat, t: Token, op: BinaryOp) { (t, op) in Band(i) }

  /** What a band is to the climb. */
  predicate Climbs(i: nat, t: Token, op: BinaryOp) {
    OpOf(t) == Some(op) && Precedence(op) + i == 6 && t != LParen && t != LBracket && t != Caret && t != Dot
  }

  lemma FirstBands(i: nat, t: Token, op: BinaryOp)
    requires InBand(i, t, op) && i < 2
    ensures Climbs(i, t, op)
  {
  }

  lemma RelationBand(t: Token, op: BinaryOp)
    requires InBand(2, t, op)
    ensures Climbs(2, t, op)
  {
  }

  lemma LastBands(i: nat, t: Token, op: BinaryOp)
    requires InBand(i, t, op) && i > 2
    ensures Climbs(i, t, op)
  {
  }

  lemma BandPrecedence(i: nat, t: Token, op: BinaryOp)
    requires InBand(i, t, op)
    ensures OpOf(t) == Some(op) && Precedence(op) + i == 6 && i < 6
    ensures t != LParen && t != LBracket && t != Caret && t != Dot
  {
    hide InBand, OpOf, Precedence;
    if i < 2 { FirstBands(i, t, op); } else if i == 2 { RelationBand(t, op); } else { LastBands(i, t, op); }
  }

  lemma BandStops(i: nat, t: Token, op: BinaryOp, rest: seq<Token>)
    requires InBand(i, t, op)
    ensures Stops([t] + rest, 8) && ([t] + rest)[1..] == rest && i < 6
    ensures forall min: nat :: PeekOp([t] + rest, min) == if min <= 6 - i then Some(op) else None
  {
    BandPrecedence(i, t, op);
    hide InBand, OpOf, Precedence;
  }

  lemma NothingStops()
    ensures Stops([], 8)
  {
  }

  lemma NothingClimbs(e: Expr, min: nat)
    ensures Climb(e, [], min) == Some(Parsed(e, []))
  {
    hide ParseExpr, Precedence;
  }

  /** An operand alone is read as itself. */
  lemma Alone(c: Expr, min: nat)
    requires min <= 8
    ensures ParseExpr(Show(c, 8), min) == Some(Parsed(c, []))
  {
    hide ParseExpr, Climb, Show, Stops, Precedence;
    assert Show(c, 8) + [] == Show(c, 8);
    NothingStops();
    ShowParses(c, 8, min, []);
    NothingClimbs(c, min);
  }

  /** What the climb does at one operator with one operand behind it. */
  lemma OneOperator(b: Expr, i: nat, t: Token, op: BinaryOp, c: Expr, right: seq<Token>, min: nat)
    requires InBand(i, t, op) && i < 6 && ParseExpr(right, 7 - i) == Some(Parsed(c, []))
    ensures Climb(b, [t] + right, min) ==
      if min <= 6 - i then Some(Parsed(Binary(op, b, c), [])) else Some(Parsed(b, [t] + right))
  {
    hide ParseExpr, Climb, Stops, PeekOp, InBand, Precedence, OpOf;
    BandStops(i, t, op, right);
    BandPrecedence(i, t, op);
    ClimbOnce(b, [t] + right, min);
    NothingClimbs(Binary(op, b, c), min);
  }

  function Joined(i: nat, first: BinaryOp, j: nat, second: BinaryOp, a: Expr, b: Expr, c: Expr): Expr {
    if i <= j then Binary(second, Binary(first, a, b), c) else Binary(first, a, Binary(second, b, c))
  }

  lemma AfterLeftIs(a: Expr, op: BinaryOp, ts: seq<Token>)
    ensures ParseAfterLeft(a, op, ts) ==
      var right := ParseExpr(ts, Precedence(op) + 1);
      if right.None? then None else Climb(Binary(op, a, right.value.expr), right.value.rest, 0)
  {
    hide ParseExpr, Climb, Precedence;
  }

  lemma JoinedIs(i: nat, first: BinaryOp, j: nat, second: BinaryOp, a: Expr, b: Expr, c: Expr)
    ensures i <= j ==> Joined(i, first, j, second, a, b, c) == Binary(second, Binary(first, a, b), c)
    ensures i > j ==> Joined(i, first, j, second, a, b, c) == Binary(first, a, Binary(second, b, c))
  {
  }

  /** The same at two operators, when the middle operand is known to be read up to the second one. */
  lemma TwoOperators(i: nat, first: BinaryOp, j: nat, t: Token, second: BinaryOp, a: Expr, b: Expr, c: Expr,
      middle: seq<Token>, right: seq<Token>)
    requires i < 6 && j < 6 && Precedence(first) + i == 6 && InBand(j, t, second)
    requires ParseExpr(middle, 7 - i) == Climb(b, [t] + right, 7 - i) && ParseExpr(right, 7 - j) == Some(Parsed(c, []))
    ensures ParseAfterLeft(a, first, middle) == Some(Parsed(Joined(i, first, j, second, a, b, c), []))
  {
    hide ParseExpr, Climb, InBand, Precedence, PeekOp, OpOf, ParseAfterLeft, Joined;
    AfterLeftIs(a, first, middle);
    JoinedIs(i, first, j, second, a, b, c);
    OneOperator(b, j, t, second, c, right, 7 - i);
    if i <= j {
      OneOperator(Binary(first, a, b), j, t, second, c, right, 0);
    } else {
      NothingClimbs(Binary(first, a, Binary(second, b, c)), 0);
    }
  }

  /** Two operators behind the target of a compound assignment. */
  lemma CompoundOrdered(i: nat, s: Token, first: BinaryOp, j: nat, t: Token, second: BinaryOp, a: Expr, b: Expr,
      c: Expr)
    requires InBand(i, s, first) && InBand(j, t, second)
    ensures ParseAfterLeft(a, first, Show(b, 8) + ([t] + Show(c, 8)))
      == Some(Parsed(Joined(i, first, j, second, a, b, c), []))
  {
    hide ParseExpr, Climb, Show, Stops, PeekOp, InBand, Precedence, OpOf, ParseAfterLeft, Joined;
    var right := Show(c, 8);
    BandPrecedence(i, s, first);
    BandStops(j, t, second, right);
    ShowParses(b, 8, 7 - i, [t] + right);
    Alone(c, 7 - j);
    TwoOperators(i, first, j, t, second, a, b, c, Show(b, 8) + ([t] + right), right);
  }

  lemma GoesOn(a: Expr, i: nat, s: Token, first: BinaryOp, ts: seq<Token>)
    requires InBand(i, s, first)
    ensures Climb(a, [s] + ts, 0) == ParseAfterLeft(a, first, ts)
  {
    hide ParseExpr, Climb, Stops, PeekOp, InBand, Precedence, OpOf;
    BandStops(i, s, first, ts);
    ClimbOnce(a, [s] + ts, 0);
  }

  /**
   * Two operators between three operands: the left one takes the middle operand if it is of the same band as the right
   * one or of a tighter one, and otherwise the right one takes it.
   */
  lemma OperatorsOrdered(i: nat, s: Token, first: BinaryOp, j: nat, t: Token, second: BinaryOp, a: Expr, b: Expr,
      c: Expr)
    requires InBand(i, s, first) && InBand(j, t, second)
    ensures ParseExpr(Show(a, 8) + ([s] + (Show(b, 8) + ([t] + Show(c, 8)))), 0)
      == Some(Parsed(if i <= j then Binary(second, Binary(first, a, b), c) else Binary(first, a, Binary(second, b, c)), []))
  {
    hide ParseExpr, Climb, Show, Stops, PeekOp, InBand, Precedence, OpOf, ParseAfterLeft;
    var ts := Show(b, 8) + ([t] + Show(c, 8));
    BandStops(i, s, first, ts);
    ShowParses(a, 8, 0, [s] + ts);
    GoesOn(a, i, s, first, ts);
    CompoundOrdered(i, s, first, j, t, second, a, b, c);
  }

  /** No other token goes on with an expression. */
  lemma OthersEnd(t: Token, a: Expr, rest: seq<Token>)
    requires t != LParen && t != LBracket && t != Caret && t != Dot
    requires forall i, op :: !InBand(i, t, op)
    ensures ParseExpr(Show(a, 8) + ([t] + rest), 0) == Some(Parsed(a, [t] + rest))
  {
    hide ParseExpr, Climb, Show, Precedence;
    NoOperator(t);
    hide OpOf, InBand;
    ShowParses(a, 8, 0, [t] + rest);
    ClimbOnce(a, [t] + rest, 0);
  }

  lemma NoOperator(t: Token)
    requires forall i, op :: !InBand(i, t, op)
    ensures OpOf(t).None?
  {
    if OpOf(t).Some? {
      var op := OpOf(t).value;
      assert InBand(6 - Precedence(op), t, op);
    }
  }

  const PREFIXES: seq<(Token, UnaryOp)> := [(PlusSign, Plus), (MinusSign, Neg), (At, AddressOf)]

  /** A prefix operator binds tighter than any operator between operands. */
  lemma PrefixTighter(s: Token, uop: UnaryOp, i: nat, t: Token, op: BinaryOp, a: Expr, b: Expr)
    requires (s, uop) in PREFIXES && InBand(i, t, op)
    ensures ParseExpr([s] + (Show(a, 8) + ([t] + Show(b, 8))), 0) == Some(Parsed(Binary(op, Unary(uop, a), b), []))
  {
    hide ParseExpr, Climb, Show, Stops, PeekOp, InBand, Precedence, ParsePrefix, ParsePostfix;
    var k := [t] + Show(b, 8);
    var ts := [s] + (Show(a, 8) + k);
    BandStops(i, t, op, Show(b, 8));
    ShowParses(a, 8, 7, k);
    Alone(b, 7 - i);
    OneOperator(a, i, t, op, b, Show(b, 8), 7);
    PrefixTaken(s, uop, a, Show(a, 8) + k, k);
    StopPostfix(Unary(uop, a), k, 8);
    PrefixThenClimb(ts, 0);
    OneOperator(Unary(uop, a), i, t, op, b, Show(b, 8), 0);
  }

  lemma PrefixTaken(s: Token, uop: UnaryOp, a: Expr, ts: seq<Token>, k: seq<Token>)
    requires (s, uop) in PREFIXES && ParseExpr(ts, 7) == Some(Parsed(a, k))
    ensures ParsePrefix([s] + ts) == ParsePostfix(Unary(uop, a), k)
  {
    hide ParseExpr, ParsePostfix;
    assert ([s] + ts)[1..] == ts;
  }

  /** And a caret binds tighter than a prefix operator. */
  lemma CaretTighter(s: Token, uop: UnaryOp, a: Expr)
    requires (s, uop) in PREFIXES
    ensures ParseExpr([s] + (Show(a, 8) + [Caret]), 0) == Some(Parsed(Unary(uop, Unary(Deref, a)), []))
  {
    hide ParseExpr, Climb, Show, ParsePrefix, ParsePostfix, Stops;
    BaseParses(a, [Caret]);
    PostfixOnce(a, [Caret]);
    assert [Caret][1..] == [];
    NothingStops();
    StopPostfix(Unary(Deref, a), [], 8);
    var ts := Show(a, 8) + [Caret];
    PrefixThenClimb(ts, 7);
    NothingClimbs(Unary(Deref, a), 7);
    PrefixTaken(s, uop, Unary(Deref, a), ts, []);
    StopPostfix(Unary(uop, Unary(Deref, a)), [], 8);
    PrefixThenClimb([s] + ts, 0);
    NothingClimbs(Unary(uop, Unary(Deref, a)), 0);
  }
}
