/** Constant expressions of the inline assembler: a recursive-descent evaluator over 32-bit signed integers. */
module ConstExpr {
  import opened Wrappers
  import opened Bits

  type i32 = n: int | -0x8000_0000 <= n < 0x8000_0000

  /** Constants known so far by normalized name, and the value of each quoted character constant. */
  datatype Scope = Scope(constants: map<string, i32>, chars: map<string, i32>)

  // ----- checked arithmetic -----

  datatype Operator = Or | Xor | And | Shl | Shr | Add | Sub | Mul | Div

  datatype Prefix = Plus | Minus | Invert

  function Checked(n: int): (r: Option<i32>)
    ensures r.Some? <==> -0x8000_0000 <= n < 0x8000_0000
    ensures r.Some? ==> r.value == n
  {
    if -0x8000_0000 <= n < 0x8000_0000 then Some(n) else None
  }

  lemma Pow32()
    ensures Pow2(32) == 0x1_0000_0000
  {
    Pow2Values();
    assert Pow2(20) == 16 * Pow2(16);
    assert Pow2(24) == 16 * Pow2(20);
    assert Pow2(28) == 16 * Pow2(24);
    assert Pow2(32) == 16 * Pow2(28);
  }

  function Unsigned(v: i32): (u: nat)
    ensures u < 0x1_0000_0000
  {
    if v < 0 then v + 0x1_0000_0000 else v
  }

  function Wrapped(n: int): i32 {
    var u := n % 0x1_0000_0000;
    if u >= 0x8000_0000 then u - 0x1_0000_0000 else u
  }

  function BitsOf(op: BitOp, x: i32, y: i32): i32 {
    Pow32();
    Wrapped(Bitwise(op, Unsigned(x), Unsigned(y), 32))
  }

  /** Division that drops the fraction, as the source language divides. */
  function Quotient(x: int, y: int): int
    requires y != 0
  {
    if (x >= 0) == (y > 0) then Magnitude(x) / Magnitude(y) else -(Magnitude(x) / Magnitude(y))
  }

  function Magnitude(x: int): nat { if x < 0 then -x else x }

  function Apply(op: Operator, x: i32, y: i32): Option<i32> {
    match op
    case Or => Some(BitsOf(BitOr, x, y))
    case Xor => Some(BitsOf(BitXor, x, y))
    case And => Some(BitsOf(BitAnd, x, y))
    case Shl => if 0 <= y < 32 then Some(Wrapped(x * Pow2(y))) else None
    case Shr => if 0 <= y < 32 then Checked(x / Pow2(y)) else None
    case Add => Checked(x + y)
    case Sub => Checked(x - y)
    case Mul => Checked(x * y)
    case Div => if y == 0 then None else Checked(Quotient(x, y))
  }

  function Negate(p: Prefix, x: i32): Option<i32> {
    var n: int := x;
    match p
    case Plus => Some(x)
    case Minus => Checked(-n)
    case Invert => Some(-1 - n)
  }

  // ----- characters -----

  /** Unicode white space. */
  predicate IsSpace(c: char) {
    var n := c as int;
    || 9 <= n <= 13 || n == 0x20 || n == 0x85 || n == 0xA0 || n == 0x1680 || 0x2000 <= n <= 0x200A
    || n == 0x2028 || n == 0x2029 || n == 0x202F || n == 0x205F || n == 0x3000
  }

  predicate IsDigit(c: char) { '0' <= c <= '9' }

  predicate IsHex(c: char) { IsDigit(c) || 'A' <= c <= 'F' || 'a' <= c <= 'f' }

  predicate IsBit(c: char) { c == '0' || c == '1' }

  predicate IsLetter(c: char) { 'A' <= c <= 'Z' || 'a' <= c <= 'z' }

  predicate StartsName(c: char) { IsLetter(c) || c == '_' || c == '.' }

  predicate IsNameChar(c: char) { StartsName(c) || IsDigit(c) }

  predicate NotQuote(c: char) { c != '\'' }

  function Upper(c: char): char { if 'a' <= c <= 'z' then (c as int - 32) as char else c }

  function Normalize(s: string): string { seq(|s|, i requires 0 <= i < |s| => Upper(s[i])) }

  /** Length of the longest prefix whose characters all satisfy the predicate. */
  function Span(s: string, p: char -> bool): (n: nat)
    ensures n <= |s|
    ensures forall i :: 0 <= i < n ==> p(s[i])
    ensures n < |s| ==> !p(s[n])
  {
    if s == [] || !p(s[0]) then 0 else 1 + Span(s[1..], p)
  }

  function Skip(s: string): (r: string)
    ensures |r| <= |s|
    ensures r == [] || !IsSpace(r[0])
  {
    s[Span(s, IsSpace)..]
  }

  lemma {:induction false} SpanIs(s: string, p: char -> bool, n: nat)
    requires n <= |s| && (forall i :: 0 <= i < n ==> p(s[i])) && (n < |s| ==> !p(s[n]))
    ensures Span(s, p) == n
  {
    if n > 0 { SpanIs(s[1..], p, n - 1); }
  }

  // ----- numbers -----

  datatype Base = Dec | Hex | Bin

  function Radix(b: Base): (r: nat)
    ensures r >= 2
  {
    match b
    case Dec => 10
    case Hex => 16
    case Bin => 2
  }

  function DigitValue(c: char): nat {
    if IsDigit(c) then c as nat - '0' as nat
    else if 'A' <= c <= 'F' then c as nat - 'A' as nat + 10
    else if 'a' <= c <= 'f' then c as nat - 'a' as nat + 10
    else 0
  }

  function DigitsValue(s: string, radix: nat): nat {
    if s == [] then 0 else radix * DigitsValue(s[..|s| - 1], radix) + DigitValue(s[|s| - 1])
  }

  /** A nonempty run of digits that fits. */
  function ParseDigits(s: string, radix: nat): Option<i32> {
    if s == [] then None else Checked(DigitsValue(s, radix))
  }

  // ----- the evaluator as a function of the text -----

  datatype Parsed = Parsed(value: i32, rest: string, unresolved: bool)

  predicate StartsWith(s: string, token: string) { token <= s }

  function Token(op: Operator): (t: string)
    ensures t != []
  {
    match op
    case Or => "|" case Xor => "^" case And => "&" case Shl => "<<" case Shr => ">>"
    case Add => "+" case Sub => "-" case Mul => "*" case Div => "/"
  }

  function Level(op: Operator): nat {
    match op
    case Or => 0 case Xor => 1 case And => 2 case Shl | Shr => 3 case Add | Sub => 4 case Mul | Div => 5
  }

  function Operators(level: nat): seq<Operator> {
    match level
    case 0 => [Or] case 1 => [Xor] case 2 => [And] case 3 => [Shl, Shr] case 4 => [Add, Sub] case _ => [Mul, Div]
  }

  /** The operator of this level the text starts with. */
  function OperatorAt(level: nat, s: string): (r: Option<Operator>)
    ensures r.Some? ==> Token(r.value) <= s
  {
    var ops := Operators(level);
    if StartsWith(s, Token(ops[0])) then Some(ops[0])
    else if |ops| == 2 && StartsWith(s, Token(ops[1])) then Some(ops[1])
    else None
  }

  function Parse(level: nat, s: string, scope: Scope): (r: Option<Parsed>)
    requires level <= 6
    ensures r.Some? ==> |r.value.rest| <= |s|
    decreases |s|, 7 - level, 1
  {
    if level == 6 then Unary(s, scope)
    else
      var first := Parse(level + 1, s, scope);
      if first.None? then None else Loop(level, first.value, scope)
  }

  function Loop(level: nat, acc: Parsed, scope: Scope): (r: Option<Parsed>)
    requires level < 6
    ensures r.Some? ==> |r.value.rest| <= |acc.rest|
    decreases |acc.rest|, 7 - level, 0
  {
    var s := Skip(acc.rest);
    var op := OperatorAt(level, s);
    if op.None? then Some(acc.(rest := s))
    else
      var r := Parse(level + 1, s[|Token(op.value)|..], scope);
      if r.None? then None
      else
        var v := Apply(op.value, acc.value, r.value.value);
        if v.None? then None
        else Loop(level, Parsed(v.value, r.value.rest, acc.unresolved || r.value.unresolved), scope)
  }

  function PrefixAt(s: string): Option<Prefix> {
    if StartsWith(s, "+") then Some(Plus)
    else if StartsWith(s, "-") then Some(Minus)
    else if StartsWith(s, "~") then Some(Invert)
    else None
  }

  function Unary(s: string, scope: Scope): (r: Option<Parsed>)
    ensures r.Some? ==> |r.value.rest| <= |s|
    decreases |s|, 1, 0
  {
    var t := Skip(s);
    var p := PrefixAt(t);
    if p.None? then Primary(t, scope)
    else
      var r := Unary(t[1..], scope);
      if r.None? then None
      else
        var v := Negate(p.value, r.value.value);
        if v.None? then None else Some(r.value.(value := v.value))
  }

  function Resolved(v: Option<i32>, rest: string): Option<Parsed> {
    if v.None? then None else Some(Parsed(v.value, rest, false))
  }

  function Primary(t: string, scope: Scope): (r: Option<Parsed>)
    ensures r.Some? ==> |r.value.rest| <= |t|
    decreases |t|, 0, 0
  {
    if t != [] && t[0] == '(' then
      var r := Parse(0, t[1..], scope);
      if r.None? then None
      else
        var u := Skip(r.value.rest);
        if StartsWith(u, ")") then Some(r.value.(rest := u[1..])) else None
    else Atom(t, scope)
  }

  /** A number, a quoted character or a name; an unknown name counts as zero for now. */
  function Atom(t: string, scope: Scope): (r: Option<Parsed>)
    ensures r.Some? ==> |r.value.rest| <= |t|
  {
    if t == [] then None
    else if t[0] == '$' then
      var n := Span(t[1..], IsHex);
      Resolved(ParseDigits(t[1..n + 1], 16), t[n + 1..])
    else if t[0] == '%' then
      var n := Span(t[1..], IsBit);
      Resolved(ParseDigits(t[1..n + 1], 2), t[n + 1..])
    else if t[0] == '\'' then Quoted(t, scope)
    else if IsDigit(t[0]) then
      var n := Span(t, IsDigit);
      Resolved(ParseDigits(t[..n], 10), t[n..])
    else if StartsName(t[0]) then Some(Named(t, scope))
    else None
  }

  function Quoted(t: string, scope: Scope): (r: Option<Parsed>)
    requires t != []
    ensures r.Some? ==> |r.value.rest| <= |t|
  {
    var n := Span(t[1..], NotQuote);
    if n + 1 < |t| && t[1..n + 1] in scope.chars then Resolved(Some(scope.chars[t[1..n + 1]]), t[n + 2..]) else None
  }

  function Named(t: string, scope: Scope): (r: Parsed)
    ensures |r.rest| <= |t|
  {
    var n := Span(t, IsNameChar);
    var name := Normalize(t[..n]);
    if name in scope.constants then Parsed(scope.constants[name], t[n..], false) else Parsed(0, t[n..], true)
  }

  datatype Outcome = Fails | NotNumeric | Number(value: i32)

  function Evaluate(text: string, scope: Scope): Outcome {
    var r := Parse(0, text, scope);
    if r.None? then Fails
    else if Skip(r.value.rest) != [] || r.value.unresolved then NotNumeric
    else Number(r.value.value)
  }

  // ----- the evaluator as it runs, moving a position -----

  class Parser {
    const text: string
    const scope: Scope
    var pos: nat
    var unresolved: bool

    constructor (text: string, scope: Scope)
      ensures this.text == text && this.scope == scope && pos == 0 && !unresolved
    {
      this.text, this.scope, pos, unresolved := text, scope, 0, false;
    }

    ghost predicate Valid()
      reads this
    {
      pos <= |text|
    }

    function Rest(): string
      requires Valid()
      reads this
    {
      text[pos..]
    }

    /** The state a parse leaves: the value it returned, the text left, and whether a name was unknown on the way. */
    ghost predicate Left(r: Option<i32>, p: Option<Parsed>, before: bool)
      requires Valid()
      reads this
    {
      && r.Some? == p.Some?
      && (r.Some? ==> r.value == p.value.value && Rest() == p.value.rest && unresolved == (before || p.value.unresolved))
    }

    method Take(n: nat) returns (taken: string)
      requires Valid() && n <= |Rest()|
      modifies this`pos
      ensures Valid() && taken == old(Rest())[..n] && Rest() == old(Rest())[n..] && pos == old(pos) + n
    {
      taken := text[pos..pos + n];
      pos := pos + n;
    }

    method TakeWhile(p: char -> bool) returns (taken: string)
      requires Valid()
      modifies this`pos
      ensures Valid() && pos >= old(pos)
      ensures var n := Span(old(Rest()), p); taken == old(Rest())[..n] && Rest() == old(Rest())[n..]
    {
      var start := pos;
      while pos < |text| && p(text[pos])
        invariant Valid() && start <= pos
        invariant forall i :: start <= i < pos ==> p(text[i])
      {
        pos := pos + 1;
      }
      taken := text[start..pos];
      SpanIs(text[start..], p, pos - start);
    }

    method Consume(token: string) returns (found: bool)
      requires Valid() && token != []
      modifies this`pos
      ensures Valid() && pos >= old(pos) && (found ==> pos > old(pos))
      ensures found == StartsWith(Skip(old(Rest())), token)
      ensures Rest() == if found then Skip(old(Rest()))[|token|..] else Skip(old(Rest()))
    {
      var _ := TakeWhile(IsSpace);
      found := token <= text[pos..];
      if found {
        pos := pos + |token|;
      }
    }

    /** Step over the next operator of a level, if the text has one here. */
    method ConsumeOperator(level: nat) returns (op: Option<Operator>)
      requires Valid() && level < 6
      modifies this`pos
      ensures Valid() && pos >= old(pos) && (op.Some? ==> pos > old(pos))
      ensures op == OperatorAt(level, Skip(old(Rest())))
      ensures Rest() == Skip(old(Rest()))[if op.Some? then |Token(op.value)| else 0..]
    {
      hide Skip, Operators, StartsWith;
      SkipTwice(Rest());
      LevelOperators(level, Skip(Rest()));
      var found := Consume(Token(Operators(level)[0]));
      if found { return Some(Operators(level)[0]); }
      if level >= 3 {
        found := Consume(Token(Operators(level)[1]));
        if found { return Some(Operators(level)[1]); }
      }
      op := None;
    }

    method ParseOr() returns (r: Option<i32>)
      requires Valid()
      modifies this
      ensures Valid() && pos >= old(pos)
      ensures Left(r, Parse(0, old(Rest()), scope), old(unresolved))
      decreases |text| - pos, 9
    {
      hide Skip, Apply, Parse, Loop, OperatorAt, Token;
      ghost var before := unresolved;
      LevelStart(0, Rest(), scope);
      r := ParseXor();
      if r.None? { return; }
      ghost var acc := Parse(1, old(Rest()), scope).value;
      while true
        invariant Valid() && pos >= old(pos) && r == Some(acc.value) && unresolved == (before || acc.unresolved)
        invariant Parse(0, old(Rest()), scope) == Loop(0, acc, scope) && Rest() == acc.rest
        decreases |text| - pos
      {
        LoopUnrolled(0, acc, scope);
        var op := ConsumeOperator(0);
        if op.None? { return; }
        ghost var right := Parse(1, Rest(), scope);
        var y := ParseXor();
        if y.None? { return None; }
        r := Apply(op.value, r.value, y.value);
        if r.None? { return; }
        acc := Parsed(r.value, right.value.rest, acc.unresolved || right.value.unresolved);
      }
    }

    method ParseXor() returns (r: Option<i32>)
      requires Valid()
      modifies this
      ensures Valid() && pos >= old(pos)
      ensures Left(r, Parse(1, old(Rest()), scope), old(unresolved))
      decreases |text| - pos, 8
    {
      hide Skip, Apply, Parse, Loop, OperatorAt, Token;
      ghost var before := unresolved;
      LevelStart(1, Rest(), scope);
      r := ParseAnd();
      if r.None? { return; }
      ghost var acc := Parse(2, old(Rest()), scope).value;
      while true
        invariant Valid() && pos >= old(pos) && r == Some(acc.value) && unresolved == (before || acc.unresolved)
        invariant Parse(1, old(Rest()), scope) == Loop(1, acc, scope) && Rest() == acc.rest
        decreases |text| - pos
      {
        LoopUnrolled(1, acc, scope);
        var op := ConsumeOperator(1);
        if op.None? { return; }
        ghost var right := Parse(2, Rest(), scope);
        var y := ParseAnd();
        if y.None? { return None; }
        r := Apply(op.value, r.value, y.value);
        if r.None? { return; }
        acc := Parsed(r.value, right.value.rest, acc.unresolved || right.value.unresolved);
      }
    }

    method ParseAnd() returns (r: Option<i32>)
      requires Valid()
      modifies this
      ensures Valid() && pos >= old(pos)
      ensures Left(r, Parse(2, old(Rest()), scope), old(unresolved))
      decreases |text| - pos, 7
    {
      hide Skip, Apply, Parse, Loop, OperatorAt, Token;
      ghost var before := unresolved;
      LevelStart(2, Rest(), scope);
      r := ParseShift();
      if r.None? { return; }
      ghost var acc := Parse(3, old(Rest()), scope).value;
      while true
        invariant Valid() && pos >= old(pos) && r == Some(acc.value) && unresolved == (before || acc.unresolved)
        invariant Parse(2, old(Rest()), scope) == Loop(2, acc, scope) && Rest() == acc.rest
        decreases |text| - pos
      {
        LoopUnrolled(2, acc, scope);
        var op := ConsumeOperator(2);
        if op.None? { return; }
        ghost var right := Parse(3, Rest(), scope);
        var y := ParseShift();
        if y.None? { return None; }
        r := Apply(op.value, r.value, y.value);
        if r.None? { return; }
        acc := Parsed(r.value, right.value.rest, acc.unresolved || right.value.unresolved);
      }
    }

    method ParseShift() returns (r: Option<i32>)
      requires Valid()
      modifies this
      ensures Valid() && pos >= old(pos)
      ensures Left(r, Parse(3, old(Rest()), scope), old(unresolved))
      decreases |text| - pos, 6
    {
      hide Skip, Apply, Parse, Loop, OperatorAt, Token;
      ghost var before := unresolved;
      LevelStart(3, Rest(), scope);
      r := ParseAdd();
      if r.None? { return; }
      ghost var acc := Parse(4, old(Rest()), scope).value;
      while true
        invariant Valid() && pos >= old(pos) && r == Some(acc.value) && unresolved == (before || acc.unresolved)
        invariant Parse(3, old(Rest()), scope) == Loop(3, acc, scope) && Rest() == acc.rest
        decreases |text| - pos
      {
        LoopUnrolled(3, acc, scope);
        var op := ConsumeOperator(3);
        if op.None? { return; }
        ghost var right := Parse(4, Rest(), scope);
        var y := ParseAdd();
        if y.None? { return None; }
        r := Apply(op.value, r.value, y.value);
        if r.None? { return; }
        acc := Parsed(r.value, right.value.rest, acc.unresolved || right.value.unresolved);
      }
    }

    method ParseAdd() returns (r: Option<i32>)
      requires Valid()
      modifies this
      ensures Valid() && pos >= old(pos)
      ensures Left(r, Parse(4, old(Rest()), scope), old(unresolved))
      decreases |text| - pos, 5
    {
      hide Skip, Apply, Parse, Loop, OperatorAt, Token;
      ghost var before := unresolved;
      LevelStart(4, Rest(), scope);
      r := ParseMul();
      if r.None? { return; }
      ghost var acc := Parse(5, old(Rest()), scope).value;
      while true
        invariant Valid() && pos >= old(pos) && r == Some(acc.value) && unresolved == (before || acc.unresolved)
        invariant Parse(4, old(Rest()), scope) == Loop(4, acc, scope) && Rest() == acc.rest
        decreases |text| - pos
      {
        LoopUnrolled(4, acc, scope);
        var op := ConsumeOperator(4);
        if op.None? { return; }
        ghost var right := Parse(5, Rest(), scope);
        var y := ParseMul();
        if y.None? { return None; }
        r := Apply(op.value, r.value, y.value);
        if r.None? { return; }
        acc := Parsed(r.value, right.value.rest, acc.unresolved || right.value.unresolved);
      }
    }

    method ParseMul() returns (r: Option<i32>)
      requires Valid()
      modifies this
      ensures Valid() && pos >= old(pos)
      ensures Left(r, Parse(5, old(Rest()), scope), old(unresolved))
      decreases |text| - pos, 4
    {
      hide Skip, Apply, Parse, Loop, OperatorAt, Token;
      ghost var before := unresolved;
      LevelStart(5, Rest(), scope);
      r := ParseUnary();
      if r.None? { return; }
      ghost var acc := Parse(6, old(Rest()), scope).value;
      while true
        invariant Valid() && pos >= old(pos) && r == Some(acc.value) && unresolved == (before || acc.unresolved)
        invariant Parse(5, old(Rest()), scope) == Loop(5, acc, scope) && Rest() == acc.rest
        decreases |text| - pos
      {
        LoopUnrolled(5, acc, scope);
        var op := ConsumeOperator(5);
        if op.None? { return; }
        ghost var right := Parse(6, Rest(), scope);
        var y := ParseUnary();
        if y.None? { return None; }
        r := Apply(op.value, r.value, y.value);
        if r.None? { return; }
        acc := Parsed(r.value, right.value.rest, acc.unresolved || right.value.unresolved);
      }
    }

    method ParseUnary() returns (r: Option<i32>)
      requires Valid()
      modifies this
      ensures Valid() && pos >= old(pos)
      ensures Left(r, Parse(6, old(Rest()), scope), old(unresolved))
      decreases |text| - pos, 3
    {
      hide Skip, Primary, Parse;
      UnaryIs(Rest(), scope);
      SkipTwice(Rest());
      var p := Plus;
      var found := Consume("+");
      if !found {
        p := Minus;
        found := Consume("-");
      }
      if !found {
        p := Invert;
        found := Consume("~");
      }
      if found {
        UnaryIs(Rest(), scope);
        r := ParseUnary();
        if r.Some? { r := Negate(p, r.value); }
      } else {
        r := ParsePrimary();
      }
    }

    method ParsePrimary() returns (r: Option<i32>)
      requires Valid()
      modifies this
      ensures Valid() && pos >= old(pos)
      ensures Left(r, Primary(Skip(old(Rest())), scope), old(unresolved))
      decreases |text| - pos, 2
    {
      hide Parse, Skip, Atom;
      ghost var t := Skip(Rest());
      SkipTwice(Rest());
      var open := Consume("(");
      if open {
        assert t[0] == '(' && Rest() == t[1..];
        r := ParseOr();
        if r.None? { return; }
        var close := Consume(")");
        return if close then r else None;
      }
      assert Rest() == t && (t == [] || t[0] != '(') by { assert !("(" <= t); }
      r := ParseAtom();
    }

    method ParseNumber(sigil: nat, p: char -> bool, radix: nat) returns (r: Option<i32>)
      requires Valid() && sigil <= |Rest()|
      modifies this
      ensures Valid() && pos >= old(pos)
      ensures var t := old(Rest());
        var n := Span(t[sigil..], p);
        Left(r, Resolved(ParseDigits(t[sigil..n + sigil], radix), t[n + sigil..]), old(unresolved))
    {
      hide ParseDigits;
      ghost var t := Rest();
      var _ := Take(sigil);
      var digits := TakeWhile(p);
      assert digits == t[sigil..Span(t[sigil..], p) + sigil];
      r := ParseDigits(digits, radix);
    }

    method ParseQuoted() returns (r: Option<i32>)
      requires Valid() && Rest() != []
      modifies this
      ensures Valid() && pos >= old(pos)
      ensures Left(r, Quoted(old(Rest()), scope), old(unresolved))
    {
      ghost var t := Rest();
      var _ := Take(1);
      var body := TakeWhile(NotQuote);
      assert body == t[1..Span(t[1..], NotQuote) + 1];
      if pos == |text| || body !in scope.chars { return None; }
      var _ := Take(1);
      r := Some(scope.chars[body]);
    }

    method ParseName() returns (r: Option<i32>)
      requires Valid()
      modifies this
      ensures Valid() && pos >= old(pos)
      ensures Left(r, Some(Named(old(Rest()), scope)), old(unresolved))
    {
      var name := TakeWhile(IsNameChar);
      if Normalize(name) in scope.constants { return Some(scope.constants[Normalize(name)]); }
      unresolved := true;
      r := Some(0);
    }

    method ParseAtom() returns (r: Option<i32>)
      requires Valid()
      modifies this
      ensures Valid() && pos >= old(pos)
      ensures Left(r, Atom(old(Rest()), scope), old(unresolved))
    {
      hide ParseDigits, IsHex, IsBit, IsDigit, StartsName, Span, Quoted, Named;
      ghost var t := Rest();
      if pos == |text| {
        return None;
      }
      var c := text[pos];
      assert c == t[0];
      if c == '$' {
        r := ParseNumber(1, IsHex, 16);
      } else if c == '%' {
        r := ParseNumber(1, IsBit, 2);
      } else if c == '\'' {
        r := ParseQuoted();
      } else if IsDigit(c) {
        assert t[0..] == t;
        r := ParseNumber(0, IsDigit, 10);
      } else if StartsName(c) {
        r := ParseName();
      } else {
        r := None;
      }
    }

    method Run() returns (r: Outcome)
      requires Valid() && pos == 0 && !unresolved
      modifies this
      ensures r == Evaluate(text, scope)
    {
      hide Parse;
      assert Rest() == text;
      var value := ParseOr();
      if value.None? { return Fails; }
      var _ := TakeWhile(IsSpace);
      if pos != |text| || unresolved { return NotNumeric; }
      r := Number(value.value);
    }
  }

  lemma SkipTwice(s: string)
    ensures Skip(Skip(s)) == Skip(s)
  {
  }

  lemma LevelOperators(level: nat, s: string)
    requires level < 6
    ensures var ops := Operators(level);
      && |ops| == (if level >= 3 then 2 else 1)
      && OperatorAt(level, s) ==
           if StartsWith(s, Token(ops[0])) then Some(ops[0])
           else if level >= 3 && StartsWith(s, Token(ops[1])) then Some(ops[1])
           else None
  {
  }

  lemma LevelStart(level: nat, s: string, scope: Scope)
    requires level < 6
    ensures var first := Parse(level + 1, s, scope);
      Parse(level, s, scope) == if first.None? then None else Loop(level, first.value, scope)
  {
    hide Loop;
  }

  lemma LoopUnrolled(level: nat, acc: Parsed, scope: Scope)
    requires level < 6
    ensures var s := Skip(acc.rest);
      var op := OperatorAt(level, s);
      Loop(level, acc, scope) ==
        if op.None? then Some(acc.(rest := s))
        else
          var r := Parse(level + 1, s[|Token(op.value)|..], scope);
          if r.None? then None
          else
            var v := Apply(op.value, acc.value, r.value.value);
            if v.None? then None
            else Loop(level, Parsed(v.value, r.value.rest, acc.unresolved || r.value.unresolved), scope)
  {
    hide Skip, Apply, OperatorAt, Token, Parse;
  }

  lemma UnaryIs(s: string, scope: Scope)
    ensures Parse(6, s, scope) == Unary(s, scope)
  {
  }

  // ----- expression trees, what they mean and how they are written -----

  datatype Tree =
    | Numeral(number: nat, base: Base)
    | Char(body: string)
    | Name(name: string)
    | Group(inner: Tree)
    | Prefixed(sign: Prefix, operand: Tree)
    | Binary(op: Operator, left: Tree, right: Tree)

  predicate ValidName(s: string) { s != [] && StartsName(s[0]) && forall i :: 0 <= i < |s| ==> IsNameChar(s[i]) }

  predicate WellFormed(t: Tree) {
    match t
    case Numeral(_, _) => true
    case Char(body) => forall i :: 0 <= i < |body| ==> body[i] != '\''
    case Name(name) => ValidName(name)
    case Group(inner) => WellFormed(inner)
    case Prefixed(_, operand) => WellFormed(operand)
    case Binary(_, left, right) => WellFormed(left) && WellFormed(right)
  }

  /** The value, or None exactly when some operation on the way fails; unknown names stand for zero. */
  function Eval(t: Tree, scope: Scope): Option<i32> {
    match t
    case Numeral(number, _) => Checked(number)
    case Char(body) => if body in scope.chars then Some(scope.chars[body]) else None
    case Name(name) => Some(if Normalize(name) in scope.constants then scope.constants[Normalize(name)] else 0)
    case Group(inner) => Eval(inner, scope)
    case Prefixed(sign, operand) =>
      var v := Eval(operand, scope);
      if v.None? then None else Negate(sign, v.value)
    case Binary(op, left, right) =>
      var x := Eval(left, scope);
      var y := Eval(right, scope);
      if x.None? || y.None? then None else Apply(op, x.value, y.value)
  }

  predicate Unresolved(t: Tree, scope: Scope) {
    match t
    case Numeral(_, _) | Char(_) => false
    case Name(name) => Normalize(name) !in scope.constants
    case Group(inner) => Unresolved(inner, scope)
    case Prefixed(_, operand) => Unresolved(operand, scope)
    case Binary(_, left, right) => Unresolved(left, scope) || Unresolved(right, scope)
  }

  function DigitOf(d: nat): (c: char)
    requires d < 16
    ensures IsHex(c) && DigitValue(c) == d && (d < 10 ==> IsDigit(c)) && (d < 2 ==> IsBit(c))
  {
    if d < 10 then ('0' as int + d) as char else ('A' as int + d - 10) as char
  }

  function Digits(n: nat, base: Base): (s: string)
    ensures s != []
    ensures forall i :: 0 <= i < |s| ==> DigitIn(s[i], base)
    ensures DigitsValue(s, Radix(base)) == n
  {
    var r := Radix(base);
    if n < r then
      assert [DigitOf(n)][..0] == [];
      [DigitOf(n)]
    else
      var s := Digits(n / r, base) + [DigitOf(n % r)];
      assert s[..|s| - 1] == Digits(n / r, base);
      s
  }

  predicate DigitIn(c: char, base: Base) {
    match base
    case Dec => IsDigit(c)
    case Hex => IsHex(c)
    case Bin => IsBit(c)
  }

  function Sigil(base: Base): string {
    match base
    case Dec => ""
    case Hex => "$"
    case Bin => "%"
  }

  function Sign(p: Prefix): (s: string)
    ensures |s| == 1 && PrefixAt(s) == Some(p)
  {
    match p
    case Plus => "+"
    case Minus => assert "+"[0] != "-"[0]; "-"
    case Invert => assert "+"[0] != "~"[0] && "-"[0] != "~"[0]; "~"
  }

  function LevelOf(t: Tree): nat { if t.Binary? then Level(t.op) else 6 }

  /** The expression as text fit for an operand of the given level, with parentheses only where they are needed. */
  function Show(t: Tree, level: nat): string
    decreases t, 1
  {
    if LevelOf(t) < level then "(" + Bare(t) + ")" else Bare(t)
  }

  function Bare(t: Tree): string
    decreases t, 0
  {
    match t
    case Numeral(number, base) => Sigil(base) + Digits(number, base)
    case Char(body) => "'" + body + "'"
    case Name(name) => name
    case Group(inner) => "(" + Show(inner, 0) + ")"
    case Prefixed(sign, operand) => Sign(sign) + Show(operand, 6)
    case Binary(op, left, right) => Show(left, Level(op)) + Token(op) + Show(right, Level(op) + 1)
  }

  // ----- reading back what was written -----

  /**
   * Text that ends an operand of this level: no operator that binds tighter, and no character that would lengthen a
   * number or a name.
   */
  predicate Ends(s: string, level: nat)
    requires level <= 6
  {
    && (s != [] ==> !IsSpace(s[0]) && !IsNameChar(s[0]))
    && forall l :: level <= l < 6 ==> OperatorAt(l, s).None?
  }

  function Expected(t: Tree, rest: string, scope: Scope): Option<Parsed> {
    var v := Eval(t, scope);
    if v.None? then None else Some(Parsed(v.value, rest, Unresolved(t, scope)))
  }

  lemma SkipNothing(s: string)
    requires s == [] || !IsSpace(s[0])
    ensures Skip(s) == s
  {
    SpanIs(s, IsSpace, 0);
  }

  /** Text that starts with one character not an operator's first has no operator there. */
  lemma TokenFirst(op: Operator, s: string)
    ensures Token(op) <= s ==> s != [] && s[0] == Token(op)[0]
  {
  }

  lemma ClosingEnds(rest: string)
    ensures Ends(")" + rest, 0)
  {
    hide OperatorAt;
    var s := ")" + rest;
    forall l | 0 <= l < 6
      ensures OperatorAt(l, s).None?
    {
      var r := OperatorAt(l, s);
      if r.Some? { TokenFirst(r.value, s); }
    }
  }

  lemma OperatorFound(op: Operator, tail: string)
    ensures OperatorAt(Level(op), Token(op) + tail) == Some(op)
  {
    var s := Token(op) + tail;
    var first := Operators(Level(op))[0];
    if Token(first) <= s { TokenFirst(first, s); }
  }

  /** An operator ends an operand that binds tighter than it does. */
  lemma OperatorEnds(op: Operator, tail: string)
    ensures Ends(Token(op) + tail, Level(op) + 1)
  {
    hide OperatorAt;
    var s := Token(op) + tail;
    forall l | Level(op) + 1 <= l < 6
      ensures OperatorAt(l, s).None?
    {
      var r := OperatorAt(l, s);
      if r.Some? {
        TokenFirst(r.value, s);
        OperatorLevel(l, s);
        FirstsDiffer(op, r.value);
      }
    }
  }

  lemma OperatorLevel(level: nat, s: string)
    requires level < 6 && OperatorAt(level, s).Some?
    ensures Level(OperatorAt(level, s).value) == level
  {
  }

  lemma FirstsDiffer(op: Operator, other: Operator)
    ensures Token(op)[0] == Token(other)[0] ==> op == other
  {
  }

  /** What has been read stays as it is on the way out through looser levels. */
  lemma {:induction false} Lift(level: nat, from: nat, s: string, p: Option<Parsed>, scope: Scope)
    requires level <= from <= 6 && Parse(from, s, scope) == p
    requires p.Some? ==> Ends(p.value.rest, level)
    ensures Parse(level, s, scope) == p
    decreases from - level
  {
    hide Parse, OperatorAt, Skip, Unary;
    if level < from {
      Lift(level + 1, from, s, p, scope);
      LevelStart(level, s, scope);
      if p.Some? {
        SkipNothing(p.value.rest);
        LoopUnrolled(level, p.value, scope);
      }
    }
  }

  /** A run of digits before text that cannot lengthen it is taken whole. */
  lemma DigitsTaken(number: nat, base: Base, rest: string)
    requires Ends(rest, 6)
    ensures var d := Digits(number, base);
      && (base.Dec? ==> Span(d + rest, IsDigit) == |d|)
      && (base.Hex? ==> Span(d + rest, IsHex) == |d|)
      && (base.Bin? ==> Span(d + rest, IsBit) == |d|)
  {
    hide Digits, DigitsValue, OperatorAt;
    var d := Digits(number, base);
    var u := d + rest;
    match base
    case Dec => SpanIs(u, IsDigit, |d|);
    case Hex => SpanIs(u, IsHex, |d|);
    case Bin => SpanIs(u, IsBit, |d|);
  }

  lemma ThreeParts(a: string, d: string, rest: string)
    ensures var t := a + d + rest;
      && t[|a|..] == d + rest && t[|a|..|d| + |a|] == d && t[|d| + |a|..] == rest && forall i :: 0 <= i < |a| ==>
           t[i] == a[i]
  {
  }

  lemma NumeralParses(number: nat, base: Base, rest: string, scope: Scope)
    requires Ends(rest, 6)
    ensures Atom(Sigil(base) + Digits(number, base) + rest, scope) == Expected(Numeral(number, base), rest, scope)
  {
    DigitsTaken(number, base, rest);
    hide Digits, DigitsValue, Ends, Span, IsHex, IsBit, Quoted, Named;
    var d := Digits(number, base);
    ThreeParts(Sigil(base), d, rest);
    if base.Dec? {
      assert Sigil(base) + d + rest == d + rest;
      DecParses(number, d, rest, scope);
    }
  }

  lemma DecParses(number: nat, d: string, rest: string, scope: Scope)
    requires d != [] && IsDigit(d[0]) && Span(d + rest, IsDigit) == |d| && DigitsValue(d, 10) == number
    ensures Atom(d + rest, scope) == Expected(Numeral(number, Dec), rest, scope)
  {
    hide DigitsValue, Span, IsHex, IsBit, Quoted, Named;
    ThreeParts([], d, rest);
    assert [] + d + rest == d + rest;
  }

  lemma CharParses(body: string, rest: string, scope: Scope)
    requires WellFormed(Char(body))
    ensures Atom("'" + body + "'" + rest, scope) == Expected(Char(body), rest, scope)
  {
    var t := "'" + body + "'" + rest;
    var n := |body|;
    assert t[1..] == body + ("'" + rest) && t[1..n + 1] == body && t[n + 2..] == rest;
    SpanIs(t[1..], NotQuote, n);
  }

  lemma NameParses(name: string, rest: string, scope: Scope)
    requires ValidName(name) && Ends(rest, 6)
    ensures Atom(name + rest, scope) == Expected(Name(name), rest, scope)
  {
    hide Normalize;
    var t := name + rest;
    assert t[..|name|] == name && t[|name|..] == rest && t[0] == name[0];
    SpanIs(t, IsNameChar, |name|);
  }

  lemma AtomParses(t: Tree, rest: string, scope: Scope)
    requires WellFormed(t) && (t.Numeral? || t.Char? || t.Name?) && Ends(rest, 6)
    ensures Parse(6, Bare(t) + rest, scope) == Expected(t, rest, scope)
  {
    hide Atom, Expected, Ends;
    var s := Bare(t) + rest;
    match t {
      case Numeral(number, base) => NumeralParses(number, base, rest, scope);
      case Char(body) => CharParses(body, rest, scope);
      case Name(name) => NameParses(name, rest, scope);
    }
    AtomStart(t, rest);
    SkipNothing(s);
    assert PrefixAt(s).None?;
    UnaryIs(s, scope);
  }

  lemma AtomStart(t: Tree, rest: string)
    requires WellFormed(t) && (t.Numeral? || t.Char? || t.Name?)
    ensures var s := Bare(t) + rest; s != [] && !IsSpace(s[0]) && s[0] != '(' && s[0] !in "+-~"
  {
    hide Digits;
  }

  /** Parentheses around anything the whole parser reads. */
  lemma ParenthesesParse(t: Tree, inside: string, rest: string, scope: Scope)
    requires Parse(0, inside + (")" + rest), scope) == Expected(t, ")" + rest, scope)
    ensures Parse(6, "(" + inside + ")" + rest, scope) == Expected(t, rest, scope)
  {
    hide Parse, Atom, Eval;
    var s := "(" + inside + ")" + rest;
    var u := ")" + rest;
    assert s[1..] == inside + u && u[1..] == rest;
    SkipNothing(s);
    SkipNothing(u);
    assert PrefixAt(s).None?;
    assert ")" <= u;
    UnaryIs(s, scope);
  }

  lemma PrefixText(sign: Prefix, operand: Tree, rest: string)
    ensures var s := Bare(Prefixed(sign, operand)) + rest;
      |s| > 0 && s == Sign(sign) + (Show(operand, 6) + rest) && s[1..] == Show(operand, 6) + rest && !IsSpace(s[0])
  {
    hide Show;
    assert Bare(Prefixed(sign, operand)) == Sign(sign) + Show(operand, 6);
  }

  lemma PrefixParses(sign: Prefix, operand: Tree, rest: string, scope: Scope)
    requires Parse(6, Show(operand, 6) + rest, scope) == Expected(operand, rest, scope)
    ensures Parse(6, Bare(Prefixed(sign, operand)) + rest, scope) == Expected(Prefixed(sign, operand), rest, scope)
  {
    hide Parse, Primary, Negate, Show, Bare, IsSpace, PrefixAt, Skip, Sign;
    var inner := Show(operand, 6) + rest;
    var s := Bare(Prefixed(sign, operand)) + rest;
    PrefixText(sign, operand, rest);
    SkipNothing(s);
    PrefixFound(sign, inner);
    UnaryIs(s, scope);
    UnaryIs(inner, scope);
  }

  lemma PrefixFound(sign: Prefix, tail: string)
    ensures PrefixAt(Sign(sign) + tail) == Some(sign)
  {
    var s := Sign(sign) + tail;
    assert "+" <= s <==> s[0] == '+';
    assert "-" <= s <==> s[0] == '-';
    assert "~" <= s <==> s[0] == '~';
  }

  lemma {:induction false} ShowParses(t: Tree, level: nat, rest: string, scope: Scope)
    requires level <= 6 && WellFormed(t) && Ends(rest, level)
    ensures Parse(level, Show(t, level) + rest, scope) == Expected(t, rest, scope)
    decreases t, if LevelOf(t) < level then 2 else 1
  {
    hide Parse, Ends, Expected, OperatorAt;
    assert Ends(rest, 6) by { EndsMore(rest, level, 6); }
    var s := Show(t, level) + rest;
    if LevelOf(t) < level {
      ClosingEnds(rest);
      ShowParses(t, 0, ")" + rest, scope);
      ParenthesesParse(t, Bare(t), rest, scope);
      LiftOut(level, 6, s, t, rest, scope);
    } else if t.Binary? {
      var l := Level(t.op);
      EndsMore(rest, level, l + 1);
      EndsMore(rest, level, l);
      BinaryParses(t, rest, scope);
      LoopEnds(l, t, rest, scope);
      LiftOut(level, l, s, t, rest, scope);
    } else if t.Group? {
      ClosingEnds(rest);
      ShowParses(t.inner, 0, ")" + rest, scope);
      ParenthesesParse(t.inner, Show(t.inner, 0), rest, scope);
      GroupExpected(t.inner, rest, scope);
      assert Bare(t) == "(" + Show(t.inner, 0) + ")";
      LiftOut(level, 6, s, t, rest, scope);
    } else if t.Prefixed? {
      ShowParses(t.operand, 6, rest, scope);
      PrefixParses(t.sign, t.operand, rest, scope);
      LiftOut(level, 6, s, t, rest, scope);
    } else {
      AtomParses(t, rest, scope);
      LiftOut(level, 6, s, t, rest, scope);
    }
  }

  lemma GroupExpected(inner: Tree, rest: string, scope: Scope)
    ensures Expected(Group(inner), rest, scope) == Expected(inner, rest, scope)
  {
  }

  lemma EndsMore(rest: string, level: nat, more: nat)
    requires level <= more <= 6 && Ends(rest, level)
    ensures Ends(rest, more)
  {
    hide OperatorAt;
  }

  lemma LiftOut(level: nat, from: nat, s: string, t: Tree, rest: string, scope: Scope)
    requires level <= from <= 6 && Ends(rest, level) && Parse(from, s, scope) == Expected(t, rest, scope)
    ensures Parse(level, s, scope) == Expected(t, rest, scope)
  {
    hide Parse, Ends, Eval, Unresolved;
    Lift(level, from, s, Expected(t, rest, scope), scope);
  }

  lemma LoopEnds(level: nat, t: Tree, rest: string, scope: Scope)
    requires level < 6 && Ends(rest, level)
    ensures Expected(t, rest, scope).Some? ==>
      Loop(level, Expected(t, rest, scope).value, scope) == Expected(t, rest, scope)
  {
    hide Parse, Eval, Unresolved, OperatorAt, Loop;
    NotSpace(rest, level);
    hide Skip;
    var e := Expected(t, rest, scope);
    if e.Some? { LoopUnrolled(level, e.value, scope); }
  }

  /** A binary expression up to its last operand, ready for more operators of its level. */
  lemma {:induction false} BinaryParses(t: Tree, rest: string, scope: Scope)
    requires t.Binary? && WellFormed(t) && Ends(rest, Level(t.op) + 1)
    ensures var e := Expected(t, rest, scope);
      Parse(Level(t.op), Bare(t) + rest, scope) == if e.None? then None else Loop(Level(t.op), e.value, scope)
    decreases t, 0
  {
    hide Parse, Ends, OperatorAt, Show, Token, Apply, Loop;
    var l := Level(t.op);
    var tail := Show(t.right, l + 1) + rest;
    var k := Token(t.op) + tail;
    assert Bare(t) + rest == Show(t.left, l) + k;
    OperatorEnds(t.op, tail);
    LeftParses(t.left, l, k, scope);
    ShowParses(t.right, l + 1, rest, scope);
    OperatorFound(t.op, tail);
    assert Skip(k) == k by { NotSpace(k, l + 1); }
    assert k[|Token(t.op)|..] == tail;
    var e := Expected(t.left, k, scope);
    if e.Some? { LoopUnrolled(l, e.value, scope); }
  }

  lemma NotSpace(k: string, level: nat)
    requires level <= 6 && Ends(k, level)
    ensures Skip(k) == k
  {
    hide OperatorAt;
    SkipNothing(k);
  }

  lemma {:induction false} LeftParses(t: Tree, level: nat, rest: string, scope: Scope)
    requires level < 6 && WellFormed(t) && Ends(rest, level + 1)
    ensures var e := Expected(t, rest, scope);
      Parse(level, Show(t, level) + rest, scope) == if e.None? then None else Loop(level, e.value, scope)
    decreases t, 3
  {
    hide Parse, Ends, Expected, OperatorAt, Loop;
    if LevelOf(t) == level {
      BinaryParses(t, rest, scope);
    } else {
      ShowParses(t, level + 1, rest, scope);
      LevelStart(level, Show(t, level) + rest, scope);
    }
  }

  /**
   * Writing an expression and evaluating the text gives its value; it fails exactly when one of its operations
   * fails, and is left for the symbol resolver exactly when a name in it is unknown.
   */
  lemma WrittenThenEvaluated(t: Tree, scope: Scope)
    requires WellFormed(t)
    ensures Evaluate(Show(t, 0), scope) ==
      if Eval(t, scope).None? then Fails
      else if Unresolved(t, scope) then NotNumeric
      else Number(Eval(t, scope).value)
  {
    hide Parse, Eval, Unresolved, Ends, Show, Skip;
    assert Show(t, 0) + "" == Show(t, 0);
    assert Ends("", 0) by { NothingEnds(); }
    NotSpace("", 0);
    ShowParses(t, 0, "", scope);
  }

  lemma NothingEnds()
    ensures Ends("", 0)
  {
  }
}
