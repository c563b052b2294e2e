/** Expressions of the language: a precedence-climbing parser over tokens, and compound assignment built on it. */
module ExprParser {
  import opened Wrappers

  // ----- tokens and trees -----

  datatype BinaryOp = Add | Sub | Mul | Div | Mod | Lsh | Rsh | And | Or | Xor | Eq | Ne | Lt | Le | Gt | Ge

  datatype UnaryOp = Plus | Neg | AddressOf | Deref

  datatype Token =
    | Literal(value: nat) | Ident(name: string)
    | PlusSign | MinusSign | Star | Slash | At | Caret | Dot | Comma
    | LParen | RParen | LBracket | RBracket
    | Assign | NotEqual | Less | LessEqual | Greater | GreaterEqual
    | KwMod | KwLsh | KwRsh | KwAnd | KwOr | KwXor
    | Other

  datatype Expr =
    | Constant(value: nat) | Name(name: string) | CurrentLocation
    | Unary(uop: UnaryOp, operand: Expr)
    | Binary(op: BinaryOp, left: Expr, right: Expr)
    | Call(callee: Expr, args: seq<Expr>)
    | Index(base: Expr, index: Expr)
    | Field(base: Expr, field: string)

  function Precedence(op: BinaryOp): (p: nat)
    ensures 1 <= p <= 6
  {
    match op
    case Mul | Div | Mod | Lsh | Rsh => 6
    case Add | Sub => 5
    case Eq | Ne | Lt | Le | Gt | Ge => 4
    case And => 3
    case Or => 2
    case Xor => 1
  }

  function OpOf(t: Token): Option<BinaryOp> {
    match t
    case PlusSign => Some(Add) case MinusSign => Some(Sub) case Star => Some(Mul) case Slash => Some(Div)
    case Assign => Some(Eq) case NotEqual => Some(Ne) case Less => Some(Lt) case LessEqual => Some(Le)
    case Greater => Some(Gt) case GreaterEqual => Some(Ge)
    case KwMod => Some(Mod) case KwLsh => Some(Lsh) case KwRsh => Some(Rsh)
    case KwAnd => Some(And) case KwOr => Some(Or) case KwXor => Some(Xor)
    case _ => None
  }

  /** The operator in front, if it binds at least as tightly as `min`. */
  function PeekOp(ts: seq<Token>, min: nat): Option<BinaryOp> {
    if ts == [] then None
    else
      var op := OpOf(ts[0]);
      if op.Some? && Precedence(op.value) >= min then op else None
  }

  // ----- the parser as a function of the tokens left -----

  datatype Parsed = Parsed(expr: Expr, rest: seq<Token>)

  function ParseExpr(ts: seq<Token>, min: nat): (r: Option<Parsed>)
    ensures r.Some? ==> |r.value.rest| < |ts|
    decreases |ts|, 4
  {
    var left := ParsePrefix(ts);
    if left.None? then None else Climb(left.value.expr, left.value.rest, min)
  }

  function Climb(left: Expr, ts: seq<Token>, min: nat): (r: Option<Parsed>)
    ensures r.Some? ==> |r.value.rest| <= |ts|
    decreases |ts|, 3
  {
    var op := PeekOp(ts, min);
    if op.None? then Some(Parsed(left, ts))
    else
      var right := ParseExpr(ts[1..], Precedence(op.value) + 1);
      if right.None? then None else Climb(Binary(op.value, left, right.value.expr), right.value.rest, min)
  }

  function PrefixOp(t: Token): Option<UnaryOp> {
    match t
    case PlusSign => Some(Plus)
    case MinusSign => Some(Neg)
    case At => Some(AddressOf)
    case _ => None
  }

  function ParsePrefix(ts: seq<Token>): (r: Option<Parsed>)
    ensures r.Some? ==> |r.value.rest| < |ts|
    decreases |ts|, 2
  {
    if ts == [] then None
    else if PrefixOp(ts[0]).Some? then
      var e := ParseExpr(ts[1..], 7);
      if e.None? then None else ParsePostfix(Unary(PrefixOp(ts[0]).value, e.value.expr), e.value.rest)
    else
      match ts[0]
      case Literal(value) => ParsePostfix(Constant(value), ts[1..])
      case Ident(name) => ParsePostfix(Name(name), ts[1..])
      case Star => ParsePostfix(CurrentLocation, ts[1..])
      case LParen =>
        var e := ParseExpr(ts[1..], 0);
        if e.None? || !Heads(e.value.rest, RParen) then None else ParsePostfix(e.value.expr, e.value.rest[1..])
      case _ => None
  }

  predicate Heads(ts: seq<Token>, t: Token) { ts != [] && ts[0] == t }

  function ParsePostfix(e: Expr, ts: seq<Token>): (r: Option<Parsed>)
    ensures r.Some? ==> |r.value.rest| <= |ts|
    decreases |ts|, 1
  {
    if Heads(ts, LParen) then
      var a := ParseArgs(ts[1..]);
      if a.None? then None else ParsePostfix(Call(e, a.value.args), a.value.rest)
    else if Heads(ts, LBracket) then
      var i := ParseExpr(ts[1..], 0);
      if i.None? || !Heads(i.value.rest, RBracket) then None else ParsePostfix(Index(e, i.value.expr), i.value.rest[1..])
    else if Heads(ts, Caret) then ParsePostfix(Unary(Deref, e), ts[1..])
    else if Heads(ts, Dot) then
      if |ts| < 2 || !ts[1].Ident? then None else ParsePostfix(Field(e, ts[1].name), ts[2..])
    else Some(Parsed(e, ts))
  }

  datatype ParsedArgs = ParsedArgs(args: seq<Expr>, rest: seq<Token>)

  /** Arguments up to and including the closing parenthesis; a comma may also end the list. */
  function ParseArgs(ts: seq<Token>): (r: Option<ParsedArgs>)
    ensures r.Some? ==> |r.value.rest| < |ts|
    decreases |ts|, 5
  {
    if ts == [] then None
    else if ts[0] == RParen then Some(ParsedArgs([], ts[1..]))
    else
      var a := ParseExpr(ts, 0);
      if a.None? then None
      else if Heads(a.value.rest, Comma) then
        var more := ParseArgs(a.value.rest[1..]);
        if more.None? then None else Some(ParsedArgs([a.value.expr] + more.value.args, more.value.rest))
      else if Heads(a.value.rest, RParen) then Some(ParsedArgs([a.value.expr], a.value.rest[1..]))
      else None
  }

  // ----- the parser as it runs -----

  class Parser {
    const tokens: seq<Token>
    var pos: nat

    constructor (tokens: seq<Token>)
      ensures this.tokens == tokens && pos == 0
    {
      this.tokens, pos := tokens, 0;
    }

    ghost predicate Valid()
      reads this
    {
      pos <= |tokens|
    }

    function Rest(): seq<Token>
      requires Valid()
      reads this
    {
      tokens[pos..]
    }

    /** The parse succeeded exactly as the function says, and stopped where it says. */
    ghost predicate Left(r: Option<Expr>, p: Option<Parsed>)
      requires Valid()
      reads this
    {
      r.Some? == p.Some? && (r.Some? ==> r.value == p.value.expr && Rest() == p.value.rest)
    }

    method Eat(t: Token) returns (found: bool)
      requires Valid()
      modifies this
      ensures Valid() && found == Heads(old(Rest()), t) && pos == old(pos) + if found then 1 else 0
      ensures Rest() == if found then old(Rest())[1..] else old(Rest())
    {
      found := pos < |tokens| && tokens[pos] == t;
      if found { pos := pos + 1; }
    }

    method Expression(min: nat) returns (r: Option<Expr>)
      requires Valid()
      modifies this
      ensures Valid() && pos >= old(pos) && (r.Some? ==> pos > old(pos)) && Left(r, ParseExpr(old(Rest()), min))
      decreases |tokens| - pos, 4
    {
      hide ParsePrefix, Precedence, Climb, PeekOp;
      r := Prefix();
      if r.None? { return; }
      while true
        invariant Valid() && pos > old(pos) && r.Some?
        invariant ParseExpr(old(Rest()), min) == Climb(r.value, Rest(), min)
        decreases |tokens| - pos
      {
        ClimbOnce(r.value, Rest(), min);
        var op := PeekOp(tokens[pos..], min);
        if op.None? { return; }
        pos := pos + 1;
        assert Rest() == tokens[pos - 1..][1..];
        var right := Expression(Precedence(op.value) + 1);
        if right.None? { return None; }
        r := Some(Binary(op.value, r.value, right.value));
      }
    }

    method Prefix() returns (r: Option<Expr>)
      requires Valid()
      modifies this
      ensures Valid() && pos >= old(pos) && (r.Some? ==> pos > old(pos)) && Left(r, ParsePrefix(old(Rest())))
      decreases |tokens| - pos, 2
    {
      hide ParseExpr, ParsePostfix;
      if pos == |tokens| { return None; }
      var t := tokens[pos];
      assert Rest()[0] == t && Rest()[1..] == tokens[pos + 1..];
      pos := pos + 1;
      if PrefixOp(t).Some? {
        var e := Expression(7);
        if e.None? { return None; }
        r := Postfix(Unary(PrefixOp(t).value, e.value));
        return;
      }
      match t {
        case Literal(value) => r := Postfix(Constant(value));
        case Ident(name) => r := Postfix(Name(name));
        case Star => r := Postfix(CurrentLocation);
        case LParen =>
          var e := Expression(0);
          if e.None? { return None; }
          var closed := Eat(RParen);
          if !closed { return None; }
          r := Postfix(e.value);
        case _ => r := None;
      }
    }

    method Postfix(e: Expr) returns (r: Option<Expr>)
      requires Valid()
      modifies this
      ensures Valid() && pos >= old(pos) && Left(r, ParsePostfix(e, old(Rest())))
      decreases |tokens| - pos, 1
    {
      hide ParsePostfix;
      var current, more := Some(e), true;
      while more && current.Some?
        invariant Valid() && pos >= old(pos)
        invariant current.Some? ==> ParsePostfix(e, old(Rest())) == if more then ParsePostfix(current.value, Rest()) else Some(Parsed(current.value, Rest()))
        invariant current.None? ==> ParsePostfix(e, old(Rest())).None?
        decreases current.Some?, more, |tokens| - pos
      {
        current, more := Suffix(current.value);
      }
      r := current;
    }

    /** One suffix: arguments, an index, a caret or a field; `more` is false when there is none. */
    method Suffix(e: Expr) returns (r: Option<Expr>, more: bool)
      requires Valid()
      modifies this
      ensures Valid() && pos >= old(pos)
      ensures r.None? ==> ParsePostfix(e, old(Rest())).None?
      ensures r.Some? && more ==> pos > old(pos) && ParsePostfix(e, old(Rest())) == ParsePostfix(r.value, Rest())
      ensures r.Some? && !more ==> ParsePostfix(e, old(Rest())) == Some(Parsed(r.value, Rest()))
      decreases |tokens| - pos, 0
    {
      hide ParsePostfix, ParseExpr, ParseArgs;
      ghost var here := Rest();
      PostfixOnce(e, here);
      more := true;
      var found := Eat(LParen);
      if found {
        var args := Arguments();
        r := if args.None? then None else Some(Call(e, args.value));
        return;
      }
      found := Eat(LBracket);
      if found {
        var i := Expression(0);
        if i.None? { return None, true; }
        var closed := Eat(RBracket);
        r := if closed then Some(Index(e, i.value)) else None;
        return;
      }
      found := Eat(Caret);
      if found { return Some(Unary(Deref, e)), true; }
      found := Eat(Dot);
      if !found { return Some(e), false; }
      if pos == |tokens| || !tokens[pos].Ident? { return None, true; }
      assert here[1] == tokens[pos] && here[2..] == tokens[pos + 1..];
      r := Some(Field(e, tokens[pos].name));
      pos := pos + 1;
    }

    method Arguments() returns (r: Option<seq<Expr>>)
      requires Valid()
      modifies this
      ensures Valid() && pos >= old(pos)
      ensures var a := ParseArgs(old(Rest()));
        r.Some? == a.Some? && (r.Some? ==> r.value == a.value.args && Rest() == a.value.rest && pos > old(pos))
      decreases |tokens| - pos, 5
    {
      hide ParseExpr;
      var args: seq<Expr> := [];
      while pos < |tokens| && tokens[pos] != RParen
        invariant Valid() && pos >= old(pos)
        invariant ParseArgs(old(Rest())) == Prepended(args, ParseArgs(Rest()))
        decreases |tokens| - pos
      {
        ghost var here := Rest();
        var a := Expression(0);
        if a.None? { return None; }
        PrependMore(args, a.value, ParseArgs(Rest()[if Heads(Rest(), Comma) then 1 else 0..]));
        args := args + [a.value];
        var comma := Eat(Comma);
        if !comma {
          var closed := Eat(RParen);
          return if closed then Some(args) else None;
        }
      }
      var closed := Eat(RParen);
      r := if closed then Some(args) else None;
    }

    /** The compound form: the left side and the operator are given, the tokens are the right side. */
    method AfterLeft(left: Expr, op: BinaryOp) returns (r: Option<Expr>)
      requires Valid()
      modifies this
      ensures Valid() && Left(r, ParseAfterLeft(left, op, old(Rest())))
    {
      hide ParseExpr, Precedence;
      var right := Expression(Precedence(op) + 1);
      if right.None? { return None; }
      r := Some(Binary(op, left, right.value));
      while true
        invariant Valid() && r.Some?
        invariant ParseAfterLeft(left, op, old(Rest())) == Climb(r.value, Rest(), 0)
        decreases |tokens| - pos
      {
        var next := if pos < |tokens| then OpOf(tokens[pos]) else None;
        assert next == PeekOp(Rest(), 0);
        if next.None? { return; }
        pos := pos + 1;
        assert Rest() == tokens[pos - 1..][1..];
        right := Expression(Precedence(next.value) + 1);
        if right.None? { return None; }
        r := Some(Binary(next.value, r.value, right.value));
      }
    }
  }

  lemma ClimbOnce(left: Expr, ts: seq<Token>, min: nat)
    ensures var op := PeekOp(ts, min);
      Climb(left, ts, min) ==
        if op.None? then Some(Parsed(left, ts))
        else
          var right := ParseExpr(ts[1..], Precedence(op.value) + 1);
          if right.None? then None else Climb(Binary(op.value, left, right.value.expr), right.value.rest, min)
    ensures PeekOp(ts, min).Some? ==> ts != []
  {
    hide ParseExpr, Precedence;
  }

  lemma PostfixOnce(e: Expr, ts: seq<Token>)
    ensures ParsePostfix(e, ts) ==
      if Heads(ts, LParen) then
        var a := ParseArgs(ts[1..]);
        if a.None? then None else ParsePostfix(Call(e, a.value.args), a.value.rest)
      else if Heads(ts, LBracket) then
        var i := ParseExpr(ts[1..], 0);
        if i.None? || !Heads(i.value.rest, RBracket) then None else ParsePostfix(Index(e, i.value.expr), i.value.rest[1..])
      else if Heads(ts, Caret) then ParsePostfix(Unary(Deref, e), ts[1..])
      else if Heads(ts, Dot) then
        if |ts| < 2 || !ts[1].Ident? then None else ParsePostfix(Field(e, ts[1].name), ts[2..])
      else Some(Parsed(e, ts))
  {
    hide ParseExpr, ParseArgs;
  }

  function Prepended(args: seq<Expr>, r: Option<ParsedArgs>): (p: Option<ParsedArgs>)
    ensures args == [] ==> p == r
  {
    if r.None? then None
    else
      assert [] + r.value.args == r.value.args;
      Some(ParsedArgs(args + r.value.args, r.value.rest))
  }

  lemma PrependMore(args: seq<Expr>, a: Expr, r: Option<ParsedArgs>)
    ensures r.Some? ==> Prepended(args + [a], r) == Prepended(args, Some(ParsedArgs([a] + r.value.args, r.value.rest)))
  {
    if r.Some? { assert args + [a] + r.value.args == args + ([a] + r.value.args); }
  }

  function ParseAfterLeft(left: Expr, op: BinaryOp, ts: seq<Token>): Option<Parsed> {
    var right := ParseExpr(ts, Precedence(op) + 1);
    if right.None? then None else Climb(Binary(op, left, right.value.expr), right.value.rest, 0)
  }

  // ----- writing trees down -----

  function TokenOf(op: BinaryOp): (t: Token)
    ensures OpOf(t) == Some(op)
  {
    match op
    case Add => PlusSign case Sub => MinusSign case Mul => Star case Div => Slash
    case Eq => Assign case Ne => NotEqual case Lt => Less case Le => LessEqual case Gt => Greater case Ge => GreaterEqual
    case Mod => KwMod case Lsh => KwLsh case Rsh => KwRsh case And => KwAnd case Or => KwOr case Xor => KwXor
  }

  /** Binary operators by precedence, then prefix operators, then everything that takes no parentheses. */
  function Level(e: Expr): nat {
    match e
    case Binary(op, _, _) => Precedence(op)
    case Unary(uop, _) => if uop == Deref then 8 else 7
    case _ => 8
  }

  /**
   * The tokens of a tree where an operand of the given level is wanted, with parentheses only where they are needed.
   */
  function Show(e: Expr, level: nat): seq<Token>
    decreases e, 1
  {
    if Level(e) < level then [LParen] + Bare(e) + [RParen] else Bare(e)
  }

  function PrefixToken(op: UnaryOp): Token {
    match op
    case Plus => PlusSign
    case Neg => MinusSign
    case AddressOf => At
    case Deref => Caret
  }

  function Bare(e: Expr): seq<Token>
    decreases e, 0
  {
    match e
    case Constant(value) => [Literal(value)]
    case Name(name) => [Ident(name)]
    case CurrentLocation => [Star]
    case Unary(uop, operand) => if uop == Deref then Show(operand, 8) + [Caret] else [PrefixToken(uop)] + Show(operand, 7)
    case Binary(op, left, right) => Show(left, Precedence(op)) + ([TokenOf(op)] + Show(right, Precedence(op) + 1))
    case Call(callee, args) => Show(callee, 8) + ([LParen] + ShowArgs(args))
    case Index(base, index) => Show(base, 8) + ([LBracket] + (Show(index, 0) + [RBracket]))
    case Field(base, field) => Show(base, 8) + [Dot, Ident(field)]
  }

  function ShowArgs(args: seq<Expr>): seq<Token>
    decreases args, 0
  {
    if args == [] then [RParen]
    else Show(args[0], 0) + if |args| == 1 then [RParen] else [Comma] + ShowArgs(args[1..])
  }

  // ----- reading them back -----

  /** Nothing in front that would extend an operand of this level. */
  predicate Stops(ts: seq<Token>, level: nat) {
    && !Heads(ts, LParen) && !Heads(ts, LBracket) && !Heads(ts, Caret) && !Heads(ts, Dot)
    && (ts != [] && OpOf(ts[0]).Some? ==> Precedence(OpOf(ts[0]).value) <= level)
  }

  lemma StopsMore(ts: seq<Token>, level: nat, more: nat)
    requires Stops(ts, level) && level <= more
    ensures Stops(ts, more)
  {
  }

  lemma StopPostfix(e: Expr, ts: seq<Token>, level: nat)
    requires Stops(ts, level)
    ensures ParsePostfix(e, ts) == Some(Parsed(e, ts))
  {
    PostfixOnce(e, ts);
  }

  lemma StopClimb(e: Expr, ts: seq<Token>, level: nat, min: nat)
    requires Stops(ts, level) && level < min
    ensures Climb(e, ts, min) == Some(Parsed(e, ts))
  {
    ClimbOnce(e, ts, min);
  }

  lemma Closer(ts: seq<Token>, t: Token)
    requires t == RParen || t == RBracket || t == Comma
    ensures Stops([t] + ts, 0) && forall e, min :: Climb(e, [t] + ts, min) == Some(Parsed(e, [t] + ts))
  {
    forall e, min ensures Climb(e, [t] + ts, min) == Some(Parsed(e, [t] + ts)) { ClimbOnce(e, [t] + ts, min); }
  }

  lemma PrefixThenClimb(ts: seq<Token>, min: nat)
    ensures ParseExpr(ts, min)
      == (var left := ParsePrefix(ts); if left.None? then None else Climb(left.value.expr, left.value.rest, min))
  {
    hide ParsePrefix, Climb;
  }

  /** Reading an operand leaves the climb where the operand ends. */
  lemma {:induction false} ShowParses(e: Expr, level: nat, min: nat, k: seq<Token>)
    requires min <= level <= 8 && Stops(k, level)
    ensures ParseExpr(Show(e, level) + k, min) == Climb(e, k, min)
    decreases e, 3
  {
    hide ParseExpr, Climb, ParsePrefix, Stops, Precedence;
    PrefixThenClimb(Show(e, level) + k, min);
    if Level(e) < level {
      ParenthesesParse(e, k);
      StopPostfix(e, k, level);
    } else if e.Binary? {
      BinaryParses(e, level, min, k);
    } else if Level(e) == 7 {
      PrefixParses(e, level, k);
    } else {
      PostfixParses(e, k);
      StopPostfix(e, k, level);
    }
  }

  /** A parenthesised tree is read whole, and may be followed by anything. */
  lemma {:induction false} ParenthesesParse(e: Expr, k: seq<Token>)
    ensures ParsePrefix([LParen] + Bare(e) + [RParen] + k) == ParsePostfix(e, k)
    decreases e, 2
  {
    hide ParseExpr, ParsePostfix, Stops;
    var ts := [LParen] + Bare(e) + [RParen] + k;
    assert ts[1..] == Bare(e) + ([RParen] + k);
    Closer(k, RParen);
    BareParses(e, [RParen] + k);
    assert ([RParen] + k)[1..] == k;
  }

  lemma {:induction false} BareParses(e: Expr, k: seq<Token>)
    requires Stops(k, 0) && Climb(e, k, 0) == Some(Parsed(e, k))
    ensures ParseExpr(Bare(e) + k, 0) == Some(Parsed(e, k))
    decreases e, 1
  {
    hide ParseExpr, Climb, ParsePrefix, Stops, Precedence;
    PrefixThenClimb(Bare(e) + k, 0);
    if e.Binary? {
      StopsMore(k, 0, 1);
      BinaryParses(e, 1, 0, k);
    } else if Level(e) == 7 {
      StopsMore(k, 0, 7);
      PrefixParses(e, 7, k);
    } else {
      PostfixParses(e, k);
      StopPostfix(e, k, 0);
    }
  }

  /** An operator in front ends an operand of its own level, and goes on a climb from there. */
  lemma OperatorAhead(op: BinaryOp, right: seq<Token>)
    ensures var k := [TokenOf(op)] + right; Stops(k, Precedence(op)) && k[1..] == right
    ensures forall min: nat :: min <= Precedence(op) ==> PeekOp([TokenOf(op)] + right, min) == Some(op)
  {
    hide Precedence, TokenOf;
    var t := TokenOf(op);
    assert OpOf(t) == Some(op) && t != LParen && t != LBracket && t != Caret && t != Dot;
    hide OpOf;
  }

  lemma BareBinary(e: Expr, k: seq<Token>)
    requires e.Binary?
    ensures Bare(e) + k
      == Show(e.left, Precedence(e.op)) + ([TokenOf(e.op)] + (Show(e.right, Precedence(e.op) + 1) + k))
  {
    hide Show, Precedence, TokenOf;
  }

  lemma {:induction false} BinaryParses(e: Expr, level: nat, min: nat, k: seq<Token>)
    requires e.Binary? && min <= level <= Level(e) && Stops(k, level)
    ensures ParseExpr(Bare(e) + k, min) == Climb(e, k, min)
    decreases e, 0
  {
    hide ParseExpr, Climb, Precedence, Show, Bare, Stops, PeekOp, TokenOf;
    var p := Precedence(e.op);
    var right := Show(e.right, p + 1) + k;
    var k2 := [TokenOf(e.op)] + right;
    BareBinary(e, k);
    OperatorAhead(e.op, right);
    ShowParses(e.left, p, min, k2);
    ClimbOnce(e.left, k2, min);
    StopsMore(k, level, p);
    StopsMore(k, p, p + 1);
    ShowParses(e.right, p + 1, p + 1, k);
    StopClimb(e.right, k, p, p + 1);
  }

  lemma {:induction false} PrefixParses(e: Expr, level: nat, k: seq<Token>)
    requires Level(e) == 7 && !e.Binary? && Stops(k, level) && level <= 8
    ensures ParsePrefix(Bare(e) + k) == Some(Parsed(e, k))
    decreases e, 0
  {
    hide ParseExpr, ParsePostfix;
    var ts := Bare(e) + k;
    assert ts[0] == PrefixToken(e.uop) && ts[1..] == Show(e.operand, 7) + k;
    StopsSeven(k, level);
    ShowParses(e.operand, 7, 7, k);
    StopClimb(e.operand, k, 6, 7);
    StopPostfix(e, k, level);
  }

  lemma StopsSeven(k: seq<Token>, level: nat)
    requires Stops(k, level)
    ensures Stops(k, 6) && Stops(k, 7)
  {
  }

  /** A tree that needs no parentheses is read as the start of a chain of suffixes, whatever follows. */
  lemma {:induction false} PostfixParses(e: Expr, k: seq<Token>)
    requires Level(e) == 8
    ensures ParsePrefix(Bare(e) + k) == ParsePostfix(e, k)
    decreases e, 0, 1
  {
    hide ParseExpr, ParsePostfix, ParseArgs, Precedence;
    match e
    case Constant(_) => assert (Bare(e) + k)[1..] == k;
    case Name(_) => assert (Bare(e) + k)[1..] == k;
    case CurrentLocation => assert (Bare(e) + k)[1..] == k;
    case Unary(_, operand) => DerefParses(operand, k);
    case Call(callee, args) => CallParses(callee, args, k);
    case Index(base, index) => IndexParses(base, index, k);
    case Field(base, field) => FieldParses(base, field, k);
  }

  lemma {:induction false} DerefParses(operand: Expr, k: seq<Token>)
    ensures ParsePrefix(Bare(Unary(Deref, operand)) + k) == ParsePostfix(Unary(Deref, operand), k)
    decreases Unary(Deref, operand), 0, 0
  {
    hide ParsePrefix, ParsePostfix;
    assert Bare(Unary(Deref, operand)) + k == Show(operand, 8) + ([Caret] + k);
    BaseParses(operand, [Caret] + k);
    PostfixOnce(operand, [Caret] + k);
    assert ([Caret] + k)[1..] == k;
  }

  lemma {:induction false} CallParses(callee: Expr, args: seq<Expr>, k: seq<Token>)
    ensures ParsePrefix(Bare(Call(callee, args)) + k) == ParsePostfix(Call(callee, args), k)
    decreases Call(callee, args), 0, 0
  {
    hide ParsePrefix, ParsePostfix, ParseArgs;
    var tail := ShowArgs(args) + k;
    assert Bare(Call(callee, args)) + k == Show(callee, 8) + ([LParen] + tail);
    BaseParses(callee, [LParen] + tail);
    PostfixOnce(callee, [LParen] + tail);
    assert ([LParen] + tail)[1..] == tail;
    ArgsParse(args, k);
  }

  lemma {:induction false} IndexParses(base: Expr, index: Expr, k: seq<Token>)
    ensures ParsePrefix(Bare(Index(base, index)) + k) == ParsePostfix(Index(base, index), k)
    decreases Index(base, index), 0, 0
  {
    hide ParsePrefix, ParsePostfix, ParseExpr, Stops, Climb;
    var tail := Show(index, 0) + ([RBracket] + k);
    assert Bare(Index(base, index)) + k == Show(base, 8) + ([LBracket] + tail);
    BaseParses(base, [LBracket] + tail);
    PostfixOnce(base, [LBracket] + tail);
    assert ([LBracket] + tail)[1..] == tail;
    Closer(k, RBracket);
    ShowParses(index, 0, 0, [RBracket] + k);
    assert ([RBracket] + k)[1..] == k;
  }

  lemma {:induction false} FieldParses(base: Expr, field: string, k: seq<Token>)
    ensures ParsePrefix(Bare(Field(base, field)) + k) == ParsePostfix(Field(base, field), k)
    decreases Field(base, field), 0, 0
  {
    hide ParsePrefix, ParsePostfix;
    var tail := [Dot, Ident(field)] + k;
    assert Bare(Field(base, field)) + k == Show(base, 8) + tail;
    BaseParses(base, tail);
    PostfixOnce(base, tail);
    assert tail[2..] == k;
  }

  lemma {:induction false} BaseParses(e: Expr, k: seq<Token>)
    ensures ParsePrefix(Show(e, 8) + k) == ParsePostfix(e, k)
    decreases e, 3
  {
    hide ParsePrefix, ParsePostfix, Precedence;
    if Level(e) < 8 { ParenthesesParse(e, k); } else { PostfixParses(e, k); }
  }

  lemma {:induction false} ArgRead(a: Expr, t: Token, rest: seq<Token>)
    requires t == RParen || t == Comma
    ensures ParseExpr(Show(a, 0) + ([t] + rest), 0) == Some(Parsed(a, [t] + rest))
    decreases a, 4
  {
    hide ParseExpr, Precedence, Show;
    Closer(rest, t);
    ShowParses(a, 0, 0, [t] + rest);
  }

  /** The last argument and the parenthesis behind it. */
  lemma ArgsEnd(a: Expr, ts: seq<Token>, k: seq<Token>)
    requires ts != [] && ts[0] != RParen && ParseExpr(ts, 0) == Some(Parsed(a, [RParen] + k))
    ensures ParseArgs(ts) == Some(ParsedArgs([a], k))
  {
    hide ParseExpr;
    assert ([RParen] + k)[1..] == k;
  }

  /** An argument, the comma behind it, and what follows. */
  lemma ArgsGoOn(a: Expr, ts: seq<Token>, more: seq<Token>, rest: seq<Expr>, k: seq<Token>)
    requires ts != [] && ts[0] != RParen && ParseExpr(ts, 0) == Some(Parsed(a, [Comma] + more))
    requires ParseArgs(more) == Some(ParsedArgs(rest, k))
    ensures ParseArgs(ts) == Some(ParsedArgs([a] + rest, k))
  {
    hide ParseExpr;
    assert ([Comma] + more)[1..] == more;
  }

  lemma ThreeParts(a: seq<Token>, t: Token, b: seq<Token>, k: seq<Token>)
    ensures a + ([t] + b) + k == a + ([t] + (b + k))
  {
  }

  lemma ArgsShown(args: seq<Expr>, k: seq<Token>)
    requires args != []
    ensures |args| == 1 ==> ShowArgs(args) + k == Show(args[0], 0) + ([RParen] + k)
    ensures |args| > 1 ==> ShowArgs(args) + k == Show(args[0], 0) + ([Comma] + (ShowArgs(args[1..]) + k))
  {
    hide Show;
    var first := Show(args[0], 0);
    if |args| == 1 {
      ThreeParts(first, RParen, [], k);
      assert [RParen] + [] == [RParen] && [] + k == k;
    } else {
      ThreeParts(first, Comma, ShowArgs(args[1..]), k);
    }
  }

  lemma {:induction false} ArgsParse(args: seq<Expr>, k: seq<Token>)
    ensures ParseArgs(ShowArgs(args) + k) == Some(ParsedArgs(args, k))
    decreases args, 5
  {
    hide ParseExpr, Show;
    if args == [] {
      assert (ShowArgs(args) + k)[1..] == k;
    } else {
      hide ParseArgs, ShowArgs;
      ArgsShown(args, k);
      var a, rest, ts := args[0], args[1..], ShowArgs(args) + k;
      if |args| == 1 {
        ArgRead(a, RParen, k);
        ShowStarts(a, [RParen] + k);
        ArgsEnd(a, ts, k);
        assert args == [a];
      } else {
        var more := ShowArgs(rest) + k;
        ArgRead(a, Comma, more);
        ShowStarts(a, [Comma] + more);
        ArgsParse(rest, k);
        ArgsGoOn(a, ts, more, rest, k);
        assert args == [a] + rest;
      }
    }
  }

  /** No tree starts with a closing parenthesis. */
  lemma {:induction false} ShowStarts(e: Expr, k: seq<Token>)
    ensures var ts := Show(e, 0) + k; ts != [] && ts[0] != RParen
    decreases e
  {
    BareStarts(e);
  }

  lemma {:induction false} BareStarts(e: Expr)
    ensures Bare(e) != [] && Bare(e)[0] != RParen
    decreases e
  {
    hide Precedence;
    match e
    case Unary(uop, operand) => if uop == Deref { BareStarts(operand); }
    case Binary(_, left, _) => BareStarts(left);
    case Call(callee, _) => BareStarts(callee);
    case Index(base, _) => BareStarts(base);
    case Field(base, _) => BareStarts(base);
    case _ =>
  }

  /** Writing a tree with the fewest parentheses and reading it gives the tree back. */
  lemma WrittenThenRead(e: Expr)
    ensures ParseExpr(Show(e, 0), 0) == Some(Parsed(e, []))
  {
    hide ParseExpr, Show;
    assert Show(e, 0) + [] == Show(e, 0);
    ShowParses(e, 0, 0, []);
    ClimbOnce(e, [], 0);
  }

  // ----- no text is shorter -----

  /** How long a tree is where an operand of a level is wanted. */
  function Cost(e: Expr, level: nat): nat { |Show(e, level)| }

  lemma CostGrows(e: Expr, low: nat, high: nat)
    requires low <= high
    ensures Cost(e, low) <= Cost(e, high) <= |Bare(e)| + 2 && |Bare(e)| <= Cost(e, low)
    ensures high <= Level(e) ==> Cost(e, high) == |Bare(e)|
  {
    hide Bare, Level;
  }

  predicate NoSuffix(ts: seq<Token>) {
    !Heads(ts, LParen) && !Heads(ts, LBracket) && !Heads(ts, Caret) && !Heads(ts, Dot)
  }

  /**
   * An expression that was read took at least as many tokens as writing it takes, and nothing behind it belongs to
   * it.
   */
  lemma {:induction false} ExprCost(ts: seq<Token>, min: nat)
    requires min <= 7 && ParseExpr(ts, min).Some?
    ensures var r := ParseExpr(ts, min).value;
      |ts| - |r.rest| >= Cost(r.expr, min) && NoSuffix(r.rest) && PeekOp(r.rest, min).None?
    decreases |ts|, 4
  {
    hide ParseExpr, Climb, ParsePrefix, Cost, NoSuffix, PeekOp;
    PrefixThenClimb(ts, min);
    PrefixCost(ts);
    var left := ParsePrefix(ts).value;
    NoneTighter(left.rest);
    ClimbCost(left.expr, left.rest, min, 7, |ts| - |left.rest|);
  }

  lemma NoneTighter(ts: seq<Token>)
    ensures PeekOp(ts, 8).None?
  {
  }

  /** `bound` limits the operators that may come next, and `spent` is what the left side took. */
  lemma {:induction false} ClimbCost(left: Expr, ts: seq<Token>, min: nat, bound: nat, spent: nat)
    requires min <= bound <= 7 && spent >= Cost(left, bound) && NoSuffix(ts) && PeekOp(ts, bound + 1).None?
    requires Climb(left, ts, min).Some?
    ensures var r := Climb(left, ts, min).value;
      spent + |ts| - |r.rest| >= Cost(r.expr, min) && NoSuffix(r.rest) && PeekOp(r.rest, min).None?
    decreases |ts|, 3
  {
    hide ParseExpr, Climb, Cost, NoSuffix, Precedence;
    ClimbOnce(left, ts, min);
    CostGrows(left, min, bound);
    if PeekOp(ts, min).Some? {
      var op := PeekOp(ts, min).value;
      var p := Precedence(op);
      ExprCost(ts[1..], p + 1);
      var right := ParseExpr(ts[1..], p + 1).value;
      var next := Binary(op, left, right.expr);
      CostGrows(left, p, bound);
      CostOfBinary(op, left, right.expr);
      ClimbCost(next, right.rest, min, p, spent + |ts| - |right.rest|);
    }
  }

  lemma CostOfBinary(op: BinaryOp, left: Expr, right: Expr)
    ensures Cost(Binary(op, left, right), Precedence(op))
      == Cost(left, Precedence(op)) + 1 + Cost(right, Precedence(op) + 1)
  {
    hide Precedence;
    hide Show;
    ShowFits(Binary(op, left, right), Precedence(op));
  }

  lemma ShowFits(e: Expr, level: nat)
    requires level <= Level(e)
    ensures Show(e, level) == Bare(e)
  {
  }

  lemma {:induction false} PrefixCost(ts: seq<Token>)
    requires ParsePrefix(ts).Some?
    ensures var r := ParsePrefix(ts).value; |ts| - |r.rest| >= Cost(r.expr, 7) && NoSuffix(r.rest)
    decreases |ts|, 2
  {
    hide ParseExpr, ParsePostfix, Cost, NoSuffix, PeekOp;
    if PrefixOp(ts[0]).Some? {
      var uop := PrefixOp(ts[0]).value;
      ExprCost(ts[1..], 7);
      var e := ParseExpr(ts[1..], 7).value;
      NoneToRead(Unary(uop, e.expr), e.rest);
      CostOfUnary(uop, e.expr);
    } else if ts[0] == LParen {
      ExprCost(ts[1..], 0);
      var e := ParseExpr(ts[1..], 0).value;
      CostGrows(e.expr, 0, 8);
      PostfixCost(e.expr, e.rest[1..], |ts| - |e.rest| + 1);
      CostGrows(ParsePrefix(ts).value.expr, 7, 8);
    } else {
      var e := match ts[0] case Literal(value) => Constant(value) case Ident(name) => Name(name) case _ => CurrentLocation;
      CostOfLeaf(e);
      PostfixCost(e, ts[1..], 1);
      CostGrows(ParsePrefix(ts).value.expr, 7, 8);
    }
  }

  lemma NoneToRead(e: Expr, ts: seq<Token>)
    requires NoSuffix(ts)
    ensures ParsePostfix(e, ts) == Some(Parsed(e, ts))
  {
    PostfixOnce(e, ts);
  }

  lemma CostOfUnary(uop: UnaryOp, e: Expr)
    requires uop != Deref
    ensures Cost(Unary(uop, e), 7) == 1 + Cost(e, 7)
  {
    hide Show;
    ShowFits(Unary(uop, e), 7);
  }

  lemma CostOfLeaf(e: Expr)
    requires e.Constant? || e.Name? || e.CurrentLocation?
    ensures Cost(e, 8) == 1
  {
    hide Show;
    ShowFits(e, 8);
  }

  lemma CostOfSuffix(e: Expr, index: Expr, args: seq<Expr>, field: string)
    ensures Cost(Unary(Deref, e), 8) == Cost(e, 8) + 1 && Cost(Field(e, field), 8) == Cost(e, 8) + 2
    ensures Cost(Index(e, index), 8) == Cost(e, 8) + 1 + Cost(index, 0) + 1
    ensures Cost(Call(e, args), 8) == Cost(e, 8) + 1 + |ShowArgs(args)|
  {
    hide Show, ShowArgs;
    ShowFits(Unary(Deref, e), 8);
    ShowFits(Field(e, field), 8);
    ShowFits(Index(e, index), 8);
    ShowFits(Call(e, args), 8);
  }

  lemma {:induction false} PostfixCost(e: Expr, ts: seq<Token>, spent: nat)
    requires spent >= Cost(e, 8) && ParsePostfix(e, ts).Some?
    ensures var r := ParsePostfix(e, ts).value; spent + |ts| - |r.rest| >= Cost(r.expr, 8) && NoSuffix(r.rest)
    decreases |ts|, 1
  {
    hide ParseExpr, ParsePostfix, ParseArgs, Cost, PeekOp;
    PostfixOnce(e, ts);
    if Heads(ts, LParen) {
      ArgsCost(ts[1..]);
      var a := ParseArgs(ts[1..]).value;
      CostOfSuffix(e, e, a.args, "");
      PostfixCost(Call(e, a.args), a.rest, spent + |ts| - |a.rest|);
    } else if Heads(ts, LBracket) {
      ExprCost(ts[1..], 0);
      var i := ParseExpr(ts[1..], 0).value;
      CostOfSuffix(e, i.expr, [], "");
      PostfixCost(Index(e, i.expr), i.rest[1..], spent + |ts| - |i.rest| + 1);
    } else if Heads(ts, Caret) {
      CostOfSuffix(e, e, [], "");
      PostfixCost(Unary(Deref, e), ts[1..], spent + 1);
    } else if Heads(ts, Dot) {
      CostOfSuffix(e, e, [], ts[1].name);
      PostfixCost(Field(e, ts[1].name), ts[2..], spent + 2);
    }
  }

  lemma ShowArgsMore(a: Expr, args: seq<Expr>)
    ensures |ShowArgs([])| == 1
    ensures |ShowArgs([a] + args)| == Cost(a, 0) + 1 + if args == [] then 0 else |ShowArgs(args)|
  {
    assert ([a] + args)[1..] == args;
  }

  lemma {:induction false} ArgsCost(ts: seq<Token>)
    requires ParseArgs(ts).Some?
    ensures var r := ParseArgs(ts).value; |ts| - |r.rest| >= |ShowArgs(r.args)|
    decreases |ts|, 5
  {
    hide ParseExpr, Cost, ShowArgs, PeekOp, NoSuffix;
    if ts[0] == RParen {
      ShowArgsMore(CurrentLocation, []);
    } else {
      ExprCost(ts, 0);
      var a := ParseExpr(ts, 0).value;
      if Heads(a.rest, Comma) {
        ArgsCost(a.rest[1..]);
        ShowArgsMore(a.expr, ParseArgs(a.rest[1..]).value.args);
      } else {
        ShowArgsMore(a.expr, []);
        assert [a.expr] + [] == [a.expr];
      }
    }
  }

  /**
   * No text for a tree is shorter than the one written: each pair of parentheses in it is needed, and whatever is
   * left out of it, the rest reads as another tree or not at all.
   */
  lemma WrittenShortest(e: Expr, ts: seq<Token>)
    ensures |ts| < |Show(e, 0)| ==> ParseExpr(ts, 0) != Some(Parsed(e, []))
  {
    hide ParseExpr, Show, PeekOp, NoSuffix;
    if ParseExpr(ts, 0) == Some(Parsed(e, [])) { ExprCost(ts, 0); }
  }

  // ----- compound assignment -----

  /** The value of `target op= tokens`, or None when the right side is not one whole expression. */
  function CompoundValue(target: Expr, op: BinaryOp, ts: seq<Token>): Option<Expr> {
    var r := ParseAfterLeft(target, op, ts);
    if r.Some? && r.value.rest == [] then Some(r.value.expr) else None
  }

  predicate IsSimple(value: Expr, target: Expr, op: BinaryOp) {
    value.Binary? && value.op == op && value.left == target
  }

  /** The compound form builds the tree of the expression written out: target, operator, right side. */
  lemma CompoundIsExpansion(target: Expr, op: BinaryOp, ts: seq<Token>)
    ensures ParseAfterLeft(target, op, ts) == ParseExpr(Show(target, Precedence(op)) + ([TokenOf(op)] + ts), 0)
  {
    hide ParseExpr, Climb, Show;
    var k := [TokenOf(op)] + ts;
    assert k[1..] == ts;
    ShowParses(target, Precedence(op), 0, k);
    ClimbOnce(target, k, 0);
  }

  function Size(e: Expr): (n: nat)
    ensures n >= 1
  {
    match e
    case Binary(_, left, right) => 1 + Size(left) + Size(right)
    case _ => 1
  }

  /** Each further operator puts the tree so far one level down on the left. */
  lemma {:induction false} ClimbGrows(left: Expr, ts: seq<Token>, min: nat)
    requires Climb(left, ts, min).Some? && PeekOp(ts, min).Some?
    ensures var r := Climb(left, ts, min).value.expr; r.Binary? && Size(r.left) >= Size(left)
    decreases |ts|
  {
    hide ParseExpr, Climb;
    ClimbOnce(left, ts, min);
    var op := PeekOp(ts, min).value;
    var right := ParseExpr(ts[1..], Precedence(op) + 1).value;
    var next := Binary(op, left, right.expr);
    ClimbOnce(next, right.rest, min);
    if PeekOp(right.rest, min).Some? { ClimbGrows(next, right.rest, min); }
  }

  /** A climb that used every token would have used them at any lower bound too. */
  lemma {:induction false} ClimbLower(left: Expr, ts: seq<Token>, min: nat, lower: nat)
    requires lower <= min && Climb(left, ts, min).Some? && Climb(left, ts, min).value.rest == []
    ensures Climb(left, ts, lower) == Climb(left, ts, min)
    decreases |ts|
  {
    hide ParseExpr, Climb, Precedence;
    ClimbOnce(left, ts, min);
    ClimbOnce(left, ts, lower);
    if ts != [] {
      var op := PeekOp(ts, min).value;
      var right := ParseExpr(ts[1..], Precedence(op) + 1).value;
      ClimbLower(Binary(op, left, right.expr), right.rest, min, lower);
    }
  }

  /**
   * The value is judged simple if and only if the right side read on its own is exactly its right operand: assigning
   * `target op right side` and the compound form mean the same.
   */
  lemma SimpleCompound(target: Expr, op: BinaryOp, ts: seq<Token>)
    requires CompoundValue(target, op, ts).Some?
    ensures var value := CompoundValue(target, op, ts).value;
      IsSimple(value, target, op) <==> exists right :: ParseExpr(ts, 0) == Some(Parsed(right, [])) && value == Binary(op, target, right)
  {
    hide ParseExpr, Climb, ParsePrefix, Precedence, ParseAfterLeft;
    var value := CompoundValue(target, op, ts).value;
    if IsSimple(value, target, op) {
      SimpleRight(target, op, ts);
      assert value == Binary(op, target, value.right);
    }
  }

  lemma SimpleRight(target: Expr, op: BinaryOp, ts: seq<Token>)
    requires CompoundValue(target, op, ts).Some? && IsSimple(CompoundValue(target, op, ts).value, target, op)
    ensures ParseExpr(ts, 0) == Some(Parsed(CompoundValue(target, op, ts).value.right, []))
  {
    hide ParseExpr, Climb, ParsePrefix, Precedence;
    var p := Precedence(op) + 1;
    var right := ParseExpr(ts, p).value;
    var so := Binary(op, target, right.expr);
    ClimbOnce(so, right.rest, 0);
    if PeekOp(right.rest, 0).Some? {
      ClimbGrows(so, right.rest, 0);
      SizeOfBinary(so);
    } else {
      PrefixThenClimb(ts, p);
      PrefixThenClimb(ts, 0);
      var left := ParsePrefix(ts).value;
      ClimbLower(left.expr, left.rest, p, 0);
    }
  }

  lemma SizeOfBinary(e: Expr)
    requires e.Binary?
    ensures Size(e) > Size(e.left)
  {
  }
}
