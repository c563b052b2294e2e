/** The operators of constant expressions: what each computes, how tightly it binds, how names and digits are read. */
module ConstLaws {
  import opened Wrappers
  import opened Bits
  import opened ConstExpr

  // ----- what the operators compute -----

  /** Bit `k` of a number in two's complement. */
  predicate BitAt(v: int, k: nat) { v / Pow2(k) % 2 == 1 }

  ghost predicate BitsCombined(op: BitOp, x: i32, y: i32, z: i32) {
    forall k: nat :: k < 32 ==> (BitAt(z, k) <==> OneBit(op, BitAt(x, k), BitAt(y, k)))
  }

  /** The quotient and what is left over: less than the divisor, and on the dividend's side of zero. */
  ghost predicate Divides(x: int, y: int, z: int) {
    y != 0 && var left := x - y * z;
      Magnitude(left) < Magnitude(y) && (left > 0 ==> x > 0) && (left < 0 ==> x < 0)
  }

  /** What an operator makes of two numbers. */
  ghost predicate Makes(op: Operator, x: i32, y: i32, z: i32) {
    match op
    case Or => BitsCombined(BitOr, x, y, z)
    case Xor => BitsCombined(BitXor, x, y, z)
    case And => BitsCombined(BitAnd, x, y, z)
    case Shl => 0 <= y < 32 && (z - x * Pow2(y)) % 0x1_0000_0000 == 0
    case Shr => 0 <= y < 32 && z * Pow2(y) <= x < (z + 1) * Pow2(y)
    case Add => z - y == x
    case Sub => z + y == x
    case Mul => x * y == z
    case Div => Divides(x, y, z)
  }

  /** The operands an operator has no result for. */
  predicate Undefined(op: Operator, x: i32, y: i32) {
    match op
    case Or | Xor | And => false
    case Shl | Shr => y < 0 || y > 31
    case Add => x + y < -0x8000_0000 || x + y > 0x7FFF_FFFF
    case Sub => x - y < -0x8000_0000 || x - y > 0x7FFF_FFFF
    case Mul => x * y < -0x8000_0000 || x * y > 0x7FFF_FFFF
    case Div => y == 0 || (x == -0x8000_0000 && y == -1)
  }

  // ----- the bits -----

  lemma MulAtLeast(d: nat, n: int)
    ensures n >= 1 ==> d * n >= d
    ensures n <= -1 ==> d * n <= 0 - d
  {
    if n >= 1 { assert d * n == d * (n - 1) + d && d * (n - 1) >= 0; }
    if n <= -1 { assert d * n == d * (n + 1) - (d as int) && d * (n + 1) <= 0; }
  }

  lemma QuotientIs(v: int, d: nat, q: int, s: int)
    requires v == d * q + s && 0 <= s < d
    ensures v / d == q
  {
    var r, t := v / d, v % d;
    assert v == d * r + t;
    assert d * (q - r) == d * q - d * r;
    MulAtLeast(d, q - r);
  }

  lemma QuotientPlus(v: int, d: nat, m: int)
    requires d > 0
    ensures (d * m + v) / d == m + v / d
  {
    var q, s := v / d, v % d;
    assert v == d * q + s;
    assert d * (m + q) == d * m + d * q;
    QuotientIs(d * m + v, d, m + q, s);
  }

  lemma {:induction false} Pow2Sum(a: nat, b: nat)
    ensures Pow2(a + b) == Pow2(a) * Pow2(b)
  {
    if a > 0 {
      Pow2Sum(a - 1, b);
      assert 2 * (Pow2(a - 1) * Pow2(b)) == (2 * Pow2(a - 1)) * Pow2(b);
    }
  }

  /** A multiple of a higher power of two leaves a bit as it is. */
  lemma HigherLeaves(v: int, k: nat, high: nat, m: int)
    requires k < high
    ensures BitAt(Pow2(high) * m + v, k) <==> BitAt(v, k)
  {
    var p, half := Pow2(k), Pow2(high - k - 1);
    Pow2Sum(k, high - k);
    assert Pow2(high - k) == 2 * half;
    hide Pow2;
    Regroup(p, half, m);
    QuotientPlus(v, p, 2 * (half * m));
    EvenAdded(half * m, v / p);
  }

  lemma Regroup(p: int, half: int, m: int)
    ensures p * (2 * half) * m == p * (2 * (half * m))
  {
    assert 2 * half * m == 2 * (half * m);
    assert p * (2 * half) * m == p * (2 * half * m);
  }

  lemma EvenAdded(n: int, v: int)
    ensures (2 * n + v) % 2 == v % 2
  {
  }

  lemma TopBit(v: nat, k: nat)
    requires v < 2 * Pow2(k)
    ensures BitAt(v, k) <==> v >= Pow2(k)
  {
    if v >= Pow2(k) { QuotientIs(v, Pow2(k), 1, v - Pow2(k)); } else { QuotientIs(v, Pow2(k), 0, v); }
  }

  lemma {:induction false} BitwiseBit(op: BitOp, a: nat, b: nat, width: nat, k: nat)
    requires a < Pow2(width) && b < Pow2(width) && k < width
    ensures BitAt(Bitwise(op, a, b, width), k) <==> OneBit(op, BitAt(a, k), BitAt(b, k))
    decreases width
  {
    hide BitAt;
    var h, r := Pow2(width - 1), Bitwise(op, a, b, width);
    if k == width - 1 {
      TopBit(a, k);
      TopBit(b, k);
      TopBit(r, k);
    } else {
      var a0, b0 := if a >= h then a - h else a, if b >= h then b - h else b;
      var r0 := Bitwise(op, a0, b0, width - 1);
      BitwiseBit(op, a0, b0, width - 1, k);
      HigherLeaves(a0, k, width - 1, 1);
      HigherLeaves(b0, k, width - 1, 1);
      HigherLeaves(r0, k, width - 1, 1);
    }
  }

  lemma UnsignedBit(v: i32, k: nat)
    requires k < 32
    ensures BitAt(Unsigned(v), k) <==> BitAt(v, k)
  {
    hide BitAt, Pow2;
    Pow32();
    HigherLeaves(v, k, 32, 1);
  }

  lemma WrappedBit(u: nat, k: nat)
    requires u < 0x1_0000_0000 && k < 32
    ensures BitAt(Wrapped(u), k) <==> BitAt(u, k)
  {
    hide BitAt, Pow2;
    Pow32();
    HigherLeaves(u, k, 32, -1);
  }

  lemma BitsMade(op: BitOp, x: i32, y: i32)
    ensures BitsCombined(op, x, y, BitsOf(op, x, y))
  {
    hide BitAt, Unsigned, Wrapped, Bitwise, OneBit;
    Pow32();
    var u := Bitwise(op, Unsigned(x), Unsigned(y), 32);
    forall k: nat | k < 32
      ensures BitAt(BitsOf(op, x, y), k) <==> OneBit(op, BitAt(x, k), BitAt(y, k))
    {
      WrappedBit(u, k);
      BitwiseBit(op, Unsigned(x), Unsigned(y), 32, k);
      UnsignedBit(x, k);
      UnsignedBit(y, k);
    }
  }

  lemma DivideParts(m: nat, n: nat)
    requires n > 0
    ensures m == n * (m / n) + m % n && 0 <= m % n < n && m % n <= m && 0 <= m / n && (n == 1 ==> m / n == m)
    ensures n >= 2 ==> 2 * (m / n) <= m
  {
    if n >= 2 { HalfAtMost(m, n, m / n); }
  }

  lemma QuotientDivides(x: int, y: int)
    requires y != 0
    ensures Divides(x, y, Quotient(x, y))
  {
    var m: nat, n: nat := Magnitude(x), Magnitude(y);
    DivideParts(m, n);
    SignedParts(x, y, n, m / n, m % n);
  }

  ghost predicate Leaves(x: int, y: int, z: int, left: int) { x == y * z + left }

  lemma BothTurned(x: int, y: int, z: int, left: int)
    requires Leaves(x, y, z, left)
    ensures Leaves(x, -y, -z, left)
  {
  }

  lemma QuotientTurned(x: int, y: int, z: int, left: int)
    requires Leaves(x, y, z, left)
    ensures Leaves(-x, y, -z, -left)
  {
  }

  lemma SignedParts(x: int, y: int, n: int, q: int, left: int)
    requires y != 0 && n == Magnitude(y) && Leaves(Magnitude(x), n, q, left) && 0 <= left < n && left <= Magnitude(x)
    ensures Divides(x, y, if (x >= 0) == (y > 0) then q else -q)
  {
    hide Divides, Leaves;
    if x >= 0 {
      if y < 0 { BothTurned(x, n, q, left); }
      PartsDivide(x, y, if y > 0 then q else -q, left);
    } else {
      QuotientTurned(-x, n, q, left);
      if y < 0 { BothTurned(x, n, -q, -left); }
      PartsDivide(x, y, if y > 0 then -q else q, -left);
    }
  }

  lemma PartsDivide(x: int, y: int, z: int, left: int)
    requires y != 0 && Leaves(x, y, z, left) && Magnitude(left) < Magnitude(y) && (left > 0 ==> x > 0)
      && (left < 0 ==> x < 0)
    ensures Divides(x, y, z)
  {
  }

  lemma ShiftedRight(x: int, y: nat)
    ensures (x / Pow2(y)) * Pow2(y) <= x < (x / Pow2(y) + 1) * Pow2(y)
  {
    var p := Pow2(y);
    assert x == p * (x / p) + x % p;
    assert (x / p + 1) * p == p * (x / p) + p;
  }

  lemma ShiftedLeft(x: int, y: nat)
    ensures (Wrapped(x * Pow2(y)) - x * Pow2(y)) % 0x1_0000_0000 == 0
  {
    var n := x * Pow2(y);
    WrappedModulo(n);
  }

  lemma WrappedModulo(n: int)
    ensures (Wrapped(n) - n) % 0x1_0000_0000 == 0
  {
  }

  /** An operator has a result exactly where it is defined, and the result is what the operator makes. */
  lemma OperatorsCompute(op: Operator, x: i32, y: i32)
    ensures Apply(op, x, y).None? <==> Undefined(op, x, y)
    ensures Apply(op, x, y).Some? ==> Makes(op, x, y, Apply(op, x, y).value)
  {
    hide BitsOf, BitsCombined, Quotient, Divides, Wrapped, Pow2;
    match op
    case Or => BitsMade(BitOr, x, y);
    case Xor => BitsMade(BitXor, x, y);
    case And => BitsMade(BitAnd, x, y);
    case Shl => if 0 <= y < 32 { ShiftedLeft(x, y); }
    case Shr => ShiftDefined(x, y);
    case Add | Sub | Mul =>
    case Div =>
      if y != 0 {
        QuotientDivides(x, y);
        QuotientRange(x, y);
      }
  }

  lemma ShiftDefined(x: i32, y: i32)
    ensures Apply(Shr, x, y).None? <==> y < 0 || y > 31
    ensures Apply(Shr, x, y).Some? ==> Makes(Shr, x, y, Apply(Shr, x, y).value)
  {
    if 0 <= y < 32 {
      ShiftedRight(x, y);
      QuotientSmall(x, Pow2(y));
    }
  }

  lemma QuotientSmall(x: i32, p: nat)
    requires p > 0
    ensures -0x8000_0000 <= x / p < 0x8000_0000
  {
    var q := x / p;
    assert p * q <= x < p * q + p;
    MulAtLeast(p, q - 0x8000_0000);
    MulAtLeast(p, q + 0x8000_0001);
    MulAtLeast(p, q);
    MulAtLeast(p, q + 1);
  }

  lemma QuotientRange(x: i32, y: i32)
    requires y != 0
    ensures -0x8000_0000 <= Quotient(x, y) < 0x8000_0000 <==> !(x == -0x8000_0000 && y == -1)
  {
    DivideParts(Magnitude(x), Magnitude(y));
  }

  lemma HalfAtMost(m: int, n: int, q: int)
    requires n >= 2 && m >= 0 && n * q <= m && q >= 0
    ensures 2 * q <= m
  {
    assert n * q == 2 * q + (n - 2) * q;
    assert (n - 2) * q >= 0;
  }

  /** A sign gives the number itself, the number that adds up with it to nothing, or all bits the other way. */
  lemma PrefixesCompute(p: Prefix, x: i32)
    ensures Negate(p, x).None? <==> p == Minus && x == -0x8000_0000
    ensures p == Plus ==> Negate(p, x) == Some(x)
    ensures p == Minus && Negate(p, x).Some? ==> Negate(p, x).value + x == 0
    ensures p == Invert ==> forall k: nat :: k < 32 ==> (BitAt(Negate(p, x).value, k) <==> !BitAt(x, k))
  {
    hide BitAt;
    if p == Invert {
      forall k: nat | k < 32
        ensures BitAt(-1 - x, k) <==> !BitAt(x, k)
      {
        BitFlipped(x, k);
      }
    }
  }

  lemma BitFlipped(x: int, k: nat)
    ensures BitAt(-1 - x, k) <==> !BitAt(x, k)
  {
    var p: int, q, s := Pow2(k), x / Pow2(k), x % Pow2(k);
    assert x == p * q + s;
    assert p * (-1 - q) == -p - p * q;
    QuotientIs(-1 - x, p, -1 - q, p - 1 - s);
  }

  // ----- how the operators bind -----

  /** The operators by how tightly they bind, loosest first, as they are written. */
  const BANDS: seq<seq<(string, Operator)>> :=
    [[("|", Or)], [("^", Xor)], [("&", And)], [("<<", Shl), (">>", Shr)], [("+", Add), ("-", Sub)],
     [("*", Mul), ("/", Div)]]

  predicate Written(sign: string, op: Operator, band: nat) { band < 6 && (sign, op) in BANDS[band] }

  /** A number, a character, a name, or an expression in parentheses or with a sign. */
  predicate Single(t: Tree) { WellFormed(t) && !t.Binary? }

  function Outcome(t: Tree, scope: Scope): ConstExpr.Outcome {
    if Eval(t, scope).None? then Fails
    else if Unresolved(t, scope) then NotNumeric
    else Number(Eval(t, scope).value)
  }

  lemma WrittenSo(sign: string, op: Operator, band: nat)
    requires Written(sign, op, band)
    ensures Token(op) == sign && Level(op) == band
  {
  }

  /** Every operator is written in some way. */
  lemma EveryOperatorWritten(op: Operator)
    ensures Written(Token(op), op, Level(op))
  {
  }

  lemma SingleShown(a: Tree, level: nat)
    requires Single(a) && level <= 6
    ensures Show(a, level) == Bare(a)
  {
    hide Bare, WellFormed;
  }

  lemma BinaryShown(op: Operator, left: Tree, right: Tree, level: nat)
    requires level <= Level(op)
    ensures Show(Binary(op, left, right), level) == Show(left, Level(op)) + Token(op) + Show(right, Level(op) + 1)
  {
    hide Token;
  }

  lemma ShownLeft(a: Tree, s: Operator, b: Tree, t: Operator, c: Tree)
    requires Single(a) && Single(b) && Single(c) && Level(t) <= Level(s)
    ensures Show(Binary(t, Binary(s, a, b), c), 0) == Bare(a) + Token(s) + Bare(b) + Token(t) + Bare(c)
  {
    hide Token, Bare, Show, Single;
    BinaryShown(t, Binary(s, a, b), c, 0);
    BinaryShown(s, a, b, Level(t));
    SingleShown(a, Level(s));
    SingleShown(b, Level(s) + 1);
    SingleShown(c, Level(t) + 1);
  }

  lemma ShownRight(a: Tree, s: Operator, b: Tree, t: Operator, c: Tree)
    requires Single(a) && Single(b) && Single(c) && Level(t) > Level(s)
    ensures Show(Binary(s, a, Binary(t, b, c)), 0) == Bare(a) + Token(s) + Bare(b) + Token(t) + Bare(c)
  {
    hide Token, Bare, Show, Single;
    BinaryShown(s, a, Binary(t, b, c), 0);
    BinaryShown(t, b, c, Level(s) + 1);
    SingleShown(a, Level(s));
    SingleShown(b, Level(t));
    SingleShown(c, Level(t) + 1);
    Rejoined(Bare(a) + Token(s), Bare(b), Token(t), Bare(c));
  }

  lemma Rejoined(head: string, b: string, t: string, c: string)
    ensures head + (b + t + c) == head + b + t + c
  {
  }

  /** Of two operators in a row the first goes first unless the second binds tighter. */
  lemma OperatorsBind(a: Tree, s: string, p: Operator, i: nat, b: Tree, t: string, q: Operator, j: nat, c: Tree,
      scope: Scope)
    requires Single(a) && Single(b) && Single(c) && Written(s, p, i) && Written(t, q, j)
    ensures Evaluate(Bare(a) + s + Bare(b) + t + Bare(c), scope)
      == Outcome(if j <= i then Binary(q, Binary(p, a, b), c) else Binary(p, a, Binary(q, b, c)), scope)
  {
    hide Written, Evaluate, Eval, Unresolved;
    WrittenSo(s, p, i);
    WrittenSo(t, q, j);
    hide Token, Bare, Level;
    if j <= i {
      ShownLeft(a, p, b, q, c);
      WrittenThenEvaluated(Binary(q, Binary(p, a, b), c), scope);
    } else {
      ShownRight(a, p, b, q, c);
      WrittenThenEvaluated(Binary(p, a, Binary(q, b, c)), scope);
    }
  }

  /** An operator between two operands. */
  lemma OperatorReads(a: Tree, s: string, p: Operator, i: nat, b: Tree, scope: Scope)
    requires Single(a) && Single(b) && Written(s, p, i)
    ensures Evaluate(Bare(a) + s + Bare(b), scope) == Outcome(Binary(p, a, b), scope)
  {
    hide Written, Evaluate, Eval, Unresolved;
    WrittenSo(s, p, i);
    hide Bare, Show, Token;
    BinaryShown(p, a, b, 0);
    SingleShown(a, i);
    SingleShown(b, i + 1);
    WrittenThenEvaluated(Binary(p, a, b), scope);
  }

  // ----- characters -----

  const SMALL: string := "abcdefghijklmnopqrstuvwxyz"
  const LARGE: string := "ABCDEFGHIJKLMNOPQRSTUVWXYZ"

  /** Normalizing replaces the small letters of the alphabet by their capitals, and nothing else. */
  lemma NormalizeCapitalizes(s: string, i: nat)
    requires i < |s|
    ensures |Normalize(s)| == |s|
    ensures forall k :: 0 <= k < 26 && s[i] == SMALL[k] ==> Normalize(s)[i] == LARGE[k]
    ensures s[i] !in SMALL ==> Normalize(s)[i] == s[i]
  {
    var c := s[i];
    Alphabet(c);
    if 'a' <= c <= 'z' { assert SMALL[c as int - 97] == c; }
  }

  lemma Alphabet(c: char)
    ensures forall k :: 0 <= k < 26 ==> SMALL[k] as int == 97 + k && LARGE[k] as int == 65 + k
  {
  }

  const DIGITS: string := "0123456789"

  lemma LettersAre(c: char)
    ensures IsLetter(c) <==> c in SMALL || c in LARGE
  {
    Alphabet(c);
    if 'a' <= c <= 'z' { assert SMALL[c as int - 97] == c; }
    if 'A' <= c <= 'Z' { assert LARGE[c as int - 65] == c; }
  }

  lemma DigitsAre(c: char)
    ensures IsDigit(c) <==> c in DIGITS
    ensures IsHex(c) <==> c in DIGITS + "ABCDEF" + "abcdef"
    ensures IsBit(c) <==> c in "01"
  {
  }

  /** The characters of numbers and names. */
  lemma CharactersAre(c: char)
    ensures IsDigit(c) <==> c in DIGITS
    ensures IsHex(c) <==> c in DIGITS + "ABCDEF" + "abcdef"
    ensures IsBit(c) <==> c in "01"
    ensures StartsName(c) <==> c in SMALL || c in LARGE || c in "_."
    ensures IsNameChar(c) <==> c in SMALL || c in LARGE || c in "_." || c in DIGITS
    ensures NotQuote(c) <==> c !in "'"
  {
    hide IsLetter, IsDigit, IsHex, IsBit;
    LettersAre(c);
    DigitsAre(c);
  }

  /** The digits have their values, in either case. */
  lemma DigitsCount(d: nat)
    requires d < 16
    ensures DigitValue("0123456789ABCDEF"[d]) == d && DigitValue("0123456789abcdef"[d]) == d
  {
  }

  /** The characters with the Unicode property White_Space. */
  const BLANKS: string :=
    "\t\n\U{B}\U{C}\r \U{85}\U{A0}\U{1680}\U{2000}\U{2001}\U{2002}\U{2003}\U{2004}"
    + "\U{2005}\U{2006}\U{2007}\U{2008}\U{2009}\U{200A}\U{2028}\U{2029}\U{202F}\U{205F}\U{3000}"

  /** White space is what Unicode says it is. */
  lemma SpaceExactly(c: char)
    ensures IsSpace(c) <==> c in BLANKS
  {
  }
}
