/** Decimal text to six-byte base-100 floating point, by digits alone. */
module AtariReal {
  import opened Wrappers
  import opened Isa

  // ----- decimal digits -----

  type digit = n: int | 0 <= n < 10

  function Ten(k: nat): (r: nat)
    ensures r >= 1
  {
    if k == 0 then 1 else 10 * Ten(k - 1)
  }

  lemma {:induction false} TenAdd(a: nat, b: nat)
    ensures Ten(a + b) == Ten(a) * Ten(b)
  {
    if a > 0 { TenAdd(a - 1, b); }
  }

  function Value(ds: seq<digit>): nat {
    if ds == [] then 0 else 10 * Value(ds[..|ds| - 1]) + ds[|ds| - 1]
  }

  lemma {:induction false} ValueBound(ds: seq<digit>)
    ensures Value(ds) < Ten(|ds|)
  {
    if ds != [] { ValueBound(ds[..|ds| - 1]); }
  }

  lemma ShiftNat(x: nat, y: nat)
    ensures 10 * (x * y) == x * (10 * y)
  {
  }

  lemma {:induction false} ValueAppend(a: seq<digit>, b: seq<digit>)
    ensures Value(a + b) == Value(a) * Ten(|b|) + Value(b)
  {
    if b == [] {
      assert a + b == a;
    } else {
      var n := |b| - 1;
      ValueAppend(a, b[..n]);
      assert (a + b)[..|a + b| - 1] == a + b[..n] && (a + b)[|a + b| - 1] == b[n];
      assert Ten(|b|) == 10 * Ten(n);
      ShiftNat(Value(a), Ten(n));
      hide Ten, Value;
    }
  }

  function Zeros(n: nat): (ds: seq<digit>)
    ensures |ds| == n
  {
    seq(n, _ => 0)
  }

  lemma {:induction false} ZerosValue(n: nat)
    ensures Value(Zeros(n)) == 0
  {
    if n > 0 {
      ZerosValue(n - 1);
      assert Zeros(n)[..n - 1] == Zeros(n - 1);
    }
  }

  lemma {:induction false} LeadingDigit(ds: seq<digit>)
    requires ds != [] && ds[0] != 0
    ensures Value(ds) >= Ten(|ds| - 1)
  {
    if |ds| > 1 { LeadingDigit(ds[..|ds| - 1]); } else { assert ds[..0] == []; }
  }

  // ----- powers of ten of either sign -----

  /** Products are kept as terms of their own and used only through these laws. */
  function Mul(x: real, y: real): real { x * y }

  lemma MulOrder(x: real, y: real, z: real)
    requires z > 0.0
    ensures x <= y <==> Mul(x, z) <= Mul(y, z)
    ensures x < y <==> Mul(x, z) < Mul(y, z)
  {
    if x < y { assert (y - x) * z > 0.0; }
    if y < x { assert (x - y) * z > 0.0; }
  }

  lemma MulAssociate(x: real, y: real, z: real)
    ensures Mul(Mul(x, y), z) == Mul(x, Mul(y, z))
  {
  }

  lemma MulPlus(x: real, y: real, z: real)
    ensures Mul(x + y, z) == Mul(x, z) + Mul(y, z)
  {
  }

  lemma MulUnit(x: real)
    ensures Mul(x, 1.0) == x && Mul(1.0, x) == x && Mul(0.0, x) == 0.0
  {
  }

  function Scale(k: int): (r: real)
    ensures r > 0.0
    decreases if k < 0 then -k else k
  {
    if k == 0 then 1.0 else if k > 0 then 10.0 * Scale(k - 1) else Scale(k + 1) / 10.0
  }

  lemma ScaleStep(k: int)
    ensures Scale(k + 1) == 10.0 * Scale(k)
  {
  }

  lemma Shift(x: real, y: real)
    ensures 10.0 * Mul(x, y) == Mul(x, 10.0 * y)
  {
  }

  lemma {:induction false} ScaleAdd(a: int, b: int)
    ensures Scale(a + b) == Mul(Scale(a), Scale(b))
    decreases if b < 0 then -b else b
  {
    hide Scale, Mul;
    if b == 0 {
      ScaleZero();
      MulUnit(Scale(a));
    } else if b > 0 {
      ScaleAdd(a, b - 1);
      ScaleStep(a + b - 1);
      ScaleStep(b - 1);
      Shift(Scale(a), Scale(b - 1));
    } else {
      ScaleAdd(a, b + 1);
      ScaleStep(a + b);
      ScaleStep(b);
      Shift(Scale(a), Scale(b));
    }
  }

  lemma ScaleZero()
    ensures Scale(0) == 1.0
  {
  }

  lemma {:induction false} ScaleIsTen(k: nat)
    ensures Scale(k) == Ten(k) as real
  {
    if k > 0 { ScaleIsTen(k - 1); }
  }

  // ----- decimals and their encoding -----

  /** A sign, digits without the point, and the power of ten of the last digit. */
  datatype Decimal = Decimal(negative: bool, digits: seq<digit>, power: int)

  function Magnitude(d: Decimal): real { Mul(Value(d.digits) as real, Scale(d.power)) }

  datatype ErrorKind = MissingDigits | MissingExponentDigits | ExponentHasMoreThanTwoDigits | UnexpectedCharacter | Overflow

  type Packed = b: seq<byte> | |b| == 6 witness [0, 0, 0, 0, 0, 0]

  const ZERO: Packed := [0, 0, 0, 0, 0, 0]

  function Exponent(b: Packed): int { b[0] as int % 128 - 64 }

  function Negative(b: Packed): bool { b[0] >= 128 }

  function Pair(b: byte): nat { b as int / 16 * 10 + b as int % 16 }

  function Mantissa(b: Packed): nat {
    (((Pair(b[1]) * 100 + Pair(b[2])) * 100 + Pair(b[3])) * 100 + Pair(b[4])) * 100 + Pair(b[5])
  }

  function Absolute(b: Packed): real {
    if b[0] == 0 then 0.0 else Mul(Mantissa(b) as real, Scale(2 * Exponent(b) - 8))
  }

  function Leading(ds: seq<digit>): (n: nat)
    ensures n <= |ds|
    ensures forall i :: 0 <= i < n ==> ds[i] == 0
    ensures n < |ds| ==> ds[n] != 0
  {
    if ds == [] || ds[0] != 0 then 0
    else
      var n := 1 + Leading(ds[1..]);
      assert forall i :: 1 <= i < |ds| ==> ds[i] == ds[1..][i - 1];
      n
  }

  function Significant(ds: seq<digit>): seq<digit> { ds[Leading(ds)..] }

  /** The power of ten of the first significant digit. */
  function Scientific(d: Decimal): int { |Significant(d.digits)| - 1 + d.power }

  function Base100(d: Decimal): int { Scientific(d) / 2 }

  /** Digits the mantissa takes: ten, less a leading zero when the first pair holds one digit. */
  function Room(d: Decimal): nat { if Scientific(d) % 2 == 0 then 9 else 10 }

  function Taken(ds: seq<digit>, room: nat): (m: seq<digit>)
    ensures |m| == room
  {
    if |ds| <= room then ds + Zeros(room - |ds|) else ds[..room]
  }

  function Fitted(d: Decimal): (m: seq<digit>)
    ensures |m| == 10
  {
    Zeros(10 - Room(d)) + Taken(Significant(d.digits), Room(d))
  }

  function Two(hi: digit, lo: digit): nat {
    var h: int, l: int := hi, lo;
    10 * h + l
  }

  function PackPair(hi: digit, lo: digit): (b: byte)
    ensures Pair(b) == Two(hi, lo) && b / 16 < 10 && b % 16 < 10
  {
    var h: int, l: int := hi, lo;
    h * 16 + l
  }

  function Pack(negative: bool, exponent: int, m: seq<digit>): Packed
    requires |m| == 10 && -49 <= exponent <= 49
  {
    [exponent + 64 + (if negative then 128 else 0),
     PackPair(m[0], m[1]), PackPair(m[2], m[3]), PackPair(m[4], m[5]), PackPair(m[6], m[7]), PackPair(m[8], m[9])]
  }

  function Encoded(d: Decimal): Result<Packed, ErrorKind> {
    if Significant(d.digits) == [] || Base100(d) < -49 then Ok(ZERO)
    else if Base100(d) > 49 then Err(Overflow)
    else Ok(Pack(d.negative, Base100(d), Fitted(d)))
  }

  method Encode(d: Decimal) returns (r: Result<Packed, ErrorKind>)
    ensures r == Encoded(d)
  {
    var first := 0;
    while first < |d.digits| && d.digits[first] == 0
      invariant first <= Leading(d.digits)
    {
      first := first + 1;
    }
    assert first == Leading(d.digits);
    if first == |d.digits| { return Ok(ZERO); }
    var digits := d.digits[first..];
    var scientific := |digits| - 1 + d.power;
    var exponent := scientific / 2;
    if exponent < -49 { return Ok(ZERO); }
    if exponent > 49 { return Err(Overflow); }
    var m := PlaceDigits(digits, if scientific % 2 == 0 then 1 else 0);
    assert m == Fitted(d);
    var bytes := PackDigits(d.negative, exponent, m);
    r := Ok(bytes);
  }

  /** Copy as many digits as fit behind the first `start` places; the rest stays zero. */
  method PlaceDigits(digits: seq<digit>, start: nat) returns (m: seq<digit>)
    requires start <= 1
    ensures |m| == 10
    ensures m == Zeros(start) + Taken(digits, 10 - start)
  {
    var a := new digit[10](_ => 0);
    var destination := start;
    while destination < 10 && destination - start < |digits|
      invariant start <= destination <= 10 && destination - start <= |digits|
      invariant forall i :: 0 <= i < start ==> a[i] == 0
      invariant forall i :: start <= i < destination ==> a[i] == digits[i - start]
      invariant forall i :: destination <= i < 10 ==> a[i] == 0
    {
      a[destination] := digits[destination - start];
      destination := destination + 1;
    }
    m := a[..];
  }

  method PackDigits(negative: bool, exponent: int, m: seq<digit>) returns (b: Packed)
    requires |m| == 10 && -49 <= exponent <= 49
    ensures b == Pack(negative, exponent, m)
  {
    hide PackPair;
    var bytes := new byte[6](_ => 0);
    bytes[0] := exponent + 64;
    if negative { bytes[0] := bytes[0] + 128; }
    for index := 0 to 5
      invariant bytes[0] == exponent + 64 + (if negative then 128 else 0)
      invariant forall i :: 1 <= i <= index ==> bytes[i] == PackPair(m[2 * i - 2], m[2 * i - 1])
    {
      bytes[index + 1] := PackPair(m[2 * index], m[2 * index + 1]);
    }
    b := bytes[..];
    PackIs(negative, exponent, m, b);
  }

  lemma PackIs(negative: bool, exponent: int, m: seq<digit>, b: Packed)
    requires |m| == 10 && -49 <= exponent <= 49 && b[0] == exponent + 64 + (if negative then 128 else 0)
    requires forall i :: 1 <= i <= 5 ==> b[i] == PackPair(m[2 * i - 2], m[2 * i - 1])
    ensures b == Pack(negative, exponent, m)
  {
    hide PackPair;
    assert b[1] == PackPair(m[0], m[1]);
    assert b[2] == PackPair(m[2], m[3]);
    assert b[3] == PackPair(m[4], m[5]);
    assert b[4] == PackPair(m[6], m[7]);
    assert b[5] == PackPair(m[8], m[9]);
  }

  // ----- what the bytes hold -----

  /** Packed decimal digits throughout, an exponent in range, and no leading zero pair. */
  predicate Normalised(b: Packed) {
    && (forall i :: 1 <= i < 6 ==> b[i] / 16 < 10 && b[i] % 16 < 10)
    && 15 <= b[0] % 128 <= 113 && b[1] != 0
  }

  lemma AbsoluteIs(b: Packed)
    ensures b[0] != 0 || Normalised(b) ==> Absolute(b) == Mul(Mantissa(b) as real, Scale(2 * Exponent(b) - 8))
    ensures Absolute(ZERO) == 0.0
  {
    hide Mantissa, Exponent, Mul, Scale;
  }

  lemma ValueOfTen(m: seq<digit>)
    requires |m| == 10
    ensures Value(m) ==
      (((Two(m[0], m[1]) * 100 + Two(m[2], m[3])) * 100 + Two(m[4], m[5])) * 100 + Two(m[6], m[7])) * 100 + Two(m[8], m[9])
  {
    assert m[..0] == [] && m[..10] == m;
    ValueOfEven(m, 1);
    ValueOfEven(m, 2);
    ValueOfEven(m, 3);
    ValueOfEven(m, 4);
    ValueOfEven(m, 5);
  }

  /** Two more digits. */
  lemma ValueOfEven(m: seq<digit>, k: nat)
    requires 0 < 2 * k <= |m|
    ensures Value(m[..2 * k]) == 100 * Value(m[..2 * k - 2]) + Two(m[2 * k - 2], m[2 * k - 1])
  {
    assert m[..2 * k][..2 * k - 1] == m[..2 * k - 1];
    assert m[..2 * k - 1][..2 * k - 2] == m[..2 * k - 2];
  }

  lemma PackHolds(negative: bool, exponent: int, m: seq<digit>)
    requires |m| == 10 && -49 <= exponent <= 49
    ensures var b := Pack(negative, exponent, m);
      && Mantissa(b) == Value(m) && Exponent(b) == exponent && Negative(b) == negative && b[0] != 0
      && (m[0] != 0 || m[1] != 0 ==> Normalised(b))
  {
    ValueOfTen(m);
    hide Value, PackPair, Pair;
    var b := Pack(negative, exponent, m);
    assert b[1] == PackPair(m[0], m[1]) && b[2] == PackPair(m[2], m[3]) && b[3] == PackPair(m[4], m[5])
        && b[4] == PackPair(m[6], m[7]) && b[5] == PackPair(m[8], m[9]);
    assert Two(m[0], m[1]) == 0 <==> m[0] == 0 && m[1] == 0;
    PairZero();
  }

  lemma PairZero()
    ensures Pair(0) == 0
  {
  }

  // ----- size of a decimal -----

  lemma {:induction false} SignificantValue(ds: seq<digit>)
    ensures Value(Significant(ds)) == Value(ds)
    ensures Significant(ds) != [] ==> Significant(ds)[0] != 0
  {
    var n := Leading(ds);
    ZerosValue(n);
    assert ds == Zeros(n) + ds[n..];
    ValueAppend(Zeros(n), ds[n..]);
  }

  lemma {:induction false} ScaleMonotone(a: int, b: int)
    requires a <= b
    ensures Scale(a) <= Scale(b)
    decreases b - a
  {
    if a < b {
      ScaleMonotone(a, b - 1);
      ScaleStep(b - 1);
    }
  }

  /** A decimal lies between the power of ten of its first significant digit and the next. */
  lemma MagnitudeBounds(d: Decimal)
    requires Significant(d.digits) != []
    ensures Scale(Scientific(d)) <= Magnitude(d) < Scale(Scientific(d) + 1)
  {
    var ds := Significant(d.digits);
    SignificantValue(d.digits);
    LeadingDigit(ds);
    ValueBound(ds);
    ScaleIsTen(|ds| - 1);
    ScaleIsTen(|ds|);
    ScaleAdd(|ds| - 1, d.power);
    ScaleAdd(|ds|, d.power);
    hide Scale, Value, Significant, Ten, Mul;
    MulOrder(Scale(|ds| - 1), Value(ds) as real, Scale(d.power));
    MulOrder(Value(ds) as real, Scale(|ds|), Scale(d.power));
  }

  lemma NoDigits(d: Decimal)
    requires Significant(d.digits) == []
    ensures Magnitude(d) == 0.0
  {
    SignificantValue(d.digits);
    MulUnit(Scale(d.power));
    hide Mul;
  }

  /** The result is zero exactly below 100^-49, and an overflow exactly from 100^50 on. */
  lemma RangeExact(d: Decimal)
    ensures Encoded(d) == Ok(ZERO) <==> Magnitude(d) < Scale(-98)
    ensures Encoded(d).Err? <==> Magnitude(d) >= Scale(100)
  {
    hide Scale, Significant, Fitted;
    ScaleMonotone(-98, 100);
    if Significant(d.digits) == [] {
      NoDigits(d);
    } else {
      MagnitudeBounds(d);
      var sci := Scientific(d);
      hide Magnitude;
      if sci + 1 <= -98 { ScaleMonotone(sci + 1, -98); } else { ScaleMonotone(-98, sci); }
      if sci + 1 <= 100 { ScaleMonotone(sci + 1, 100); } else { ScaleMonotone(100, sci); }
      hide Scientific;
      if -49 <= Base100(d) <= 49 { PackHolds(d.negative, Base100(d), Fitted(d)); }
    }
  }

  // ----- truncation -----

  ghost predicate Fits(d: Decimal) { Significant(d.digits) != [] && -49 <= Base100(d) <= 49 }

  lemma DivideDown(x: nat, t: nat, q: nat, rest: nat)
    requires x == q * t + rest && rest < t
    ensures Mul(q as real, t as real) <= x as real < Mul(q as real + 1.0, t as real)
  {
    MulPlus(q as real, 1.0, t as real);
    assert (q * t) as real == q as real * t as real;
  }

  lemma IntProduct(a: nat, b: nat)
    ensures (a * b) as real == Mul(a as real, b as real)
  {
  }

  lemma IntOrder(m: int, n: int)
    ensures m < n <==> m as real < n as real
    ensures m as real < n as real + 1.0 <==> m <= n
  {
  }

  /** The mantissa is the decimal cut off after the digits there is room for. */
  lemma FittedBounds(d: Decimal)
    requires Significant(d.digits) != []
    ensures var k := d.power - (2 * Base100(d) - 8);
      var m := Value(Fitted(d)) as real;
      m <= Mul(Value(d.digits) as real, Scale(k)) < m + 1.0
  {
    hide Significant, Base100, Scale, Mul, Taken, Value, Zeros, Room, Fitted;
    var ds, room := Significant(d.digits), Room(d);
    SignificantValue(d.digits);
    RoomIs(d);
    FittedValue(d);
    TakenBounds(ds, room);
  }

  /** The zeros in front of the digits taken do not count. */
  lemma FittedValue(d: Decimal)
    requires Significant(d.digits) != []
    ensures Value(Fitted(d)) == Value(Taken(Significant(d.digits), Room(d)))
  {
    hide Significant, Taken, Value, Zeros;
    var room := Room(d);
    ZerosValue(10 - room);
    ValueAppend(Zeros(10 - room), Taken(Significant(d.digits), room));
  }

  lemma RoomIs(d: Decimal)
    ensures d.power - (2 * Base100(d) - 8) == Room(d) - |Significant(d.digits)|
  {
    hide Significant;
  }

  lemma TakenBounds(ds: seq<digit>, room: nat)
    ensures Value(Taken(ds, room)) as real <= Mul(Value(ds) as real, Scale(room - |ds|)) < Value(Taken(ds, room)) as real + 1.0
  {
    if |ds| <= room { TakenAll(ds, room); } else { TakenSome(ds, room); }
  }

  lemma TakenAll(ds: seq<digit>, room: nat)
    requires |ds| <= room
    ensures Value(Taken(ds, room)) as real == Mul(Value(ds) as real, Scale(room - |ds|))
  {
    var k := room - |ds|;
    ValueAppend(ds, Zeros(k));
    ZerosValue(k);
    ScaleIsTen(k);
    hide Value, Ten, Scale, Mul;
    IntProduct(Value(ds), Ten(k));
  }

  lemma TakenSome(ds: seq<digit>, room: nat)
    requires |ds| > room
    ensures Value(Taken(ds, room)) as real <= Mul(Value(ds) as real, Scale(room - |ds|)) < Value(Taken(ds, room)) as real + 1.0
  {
    var k := room - |ds|;
    var kept, rest := ds[..room], ds[room..];
    ValueAppend(kept, rest);
    assert kept + rest == ds;
    ValueBound(rest);
    hide Scale, Value, Ten, Mul;
    DivideDown(Value(ds), Ten(-k), Value(kept), Value(rest));
    ScaleIsTen(-k);
    ScaleAdd(-k, k);
    ScaleZero();
    CutDown(Value(ds) as real, Value(kept) as real, Scale(-k), Scale(k));
  }

  lemma CutDown(x: real, q: real, t: real, s: real)
    requires t > 0.0 && s > 0.0 && Mul(t, s) == 1.0 && Mul(q, t) <= x < Mul(q + 1.0, t)
    ensures q <= Mul(x, s) < q + 1.0
  {
    hide Mul;
    MulOrder(Mul(q, t), x, s);
    MulOrder(x, Mul(q + 1.0, t), s);
    MulAssociate(q, t, s);
    MulAssociate(q + 1.0, t, s);
    MulUnit(q);
    MulUnit(q + 1.0);
  }

  lemma FirstDigitKept(d: Decimal)
    requires Significant(d.digits) != []
    ensures Fitted(d)[0] != 0 || Fitted(d)[1] != 0
  {
    SignificantValue(d.digits);
    var ds := Significant(d.digits);
    assert Fitted(d)[10 - Room(d)] == ds[0];
  }

  /**
   * The value encoded never exceeds the decimal, and falls short of it by less than one unit of the last digit pair.
   */
  lemma TruncationExact(d: Decimal)
    requires Fits(d)
    ensures var b := Encoded(d).value;
      && Encoded(d).Ok? && Normalised(b) && Negative(b) == d.negative && Exponent(b) == Base100(d)
      && Absolute(b) <= Magnitude(d) < Absolute(b) + Scale(2 * Exponent(b) - 8)
  {
    hide Scale, Value, Fitted, Significant, Normalised, Mantissa, Exponent, Base100, Pack, Negative, Mul, Absolute;
    FittedBounds(d);
    FirstDigitKept(d);
    PackHolds(d.negative, Base100(d), Fitted(d));
    var e := 2 * Base100(d) - 8;
    ScaleAdd(d.power - e, e);
    AbsoluteIs(Pack(d.negative, Base100(d), Fitted(d)));
    Rescale(Value(Fitted(d)) as real, Value(d.digits) as real, Scale(d.power - e), Scale(e));
  }

  lemma Rescale(m: real, x: real, k: real, s: real)
    requires s > 0.0 && m <= Mul(x, k) < m + 1.0
    ensures Mul(m, s) <= Mul(x, Mul(k, s)) < Mul(m, s) + s
  {
    hide Mul;
    MulOrder(m, Mul(x, k), s);
    MulOrder(Mul(x, k), m + 1.0, s);
    MulAssociate(x, k, s);
    MulPlus(m, 1.0, s);
    MulUnit(s);
  }

  // ----- order -----

  /** Comparison byte by byte from the front. */
  predicate Lex(b: seq<byte>, c: seq<byte>)
    requires |b| == |c|
  {
    b != [] && (b[0] < c[0] || (b[0] == c[0] && Lex(b[1..], c[1..])))
  }

  lemma PairOrder(p: byte, q: byte)
    requires p / 16 < 10 && p % 16 < 10 && q / 16 < 10 && q % 16 < 10
    ensures p < q <==> Pair(p) < Pair(q)
    ensures p == q <==> Pair(p) == Pair(q)
    ensures Pair(p) < 100
  {
  }

  lemma MantissaOrder(b: Packed, c: Packed)
    requires Normalised(b) && Normalised(c)
    ensures Lex(b[1..], c[1..]) <==> Mantissa(b) < Mantissa(c)
    ensures 100_000_000 <= Mantissa(b) < 10_000_000_000
  {
    forall i | 1 <= i < 6
      ensures (b[i] < c[i] <==> Pair(b[i]) < Pair(c[i])) && (b[i] == c[i] <==> Pair(b[i]) == Pair(c[i]))
        && Pair(b[i]) < 100 && Pair(c[i]) < 100
    {
      PairOrder(b[i], c[i]);
      PairOrder(c[i], b[i]);
    }
    PairOrder(b[1], 0);
    hide Pair;
    LexFive(b, c);
  }

  lemma LexFive(b: Packed, c: Packed)
    ensures Lex(b[1..], c[1..]) <==>
      b[1] < c[1] || (b[1] == c[1] && (b[2] < c[2] || (b[2] == c[2] && (b[3] < c[3] || (b[3] == c[3]
          && (b[4] < c[4] || (b[4] == c[4] && b[5] < c[5])))))))
  {
    var b1, c1 := b[1..], c[1..];
    assert b1[1..] == b[2..] && c1[1..] == c[2..];
    assert b[2..][1..] == b[3..] && c[2..][1..] == c[3..];
    assert b[3..][1..] == b[4..] && c[3..][1..] == c[4..];
    assert b[4..][1..] == b[5..] && c[4..][1..] == c[5..];
    assert b[5..][1..] == [] && c[5..][1..] == [];
    assert Lex(b[5..], c[5..]) <==> b[5] < c[5];
    assert Lex(b[4..], c[4..]) <==> b[4] < c[4] || (b[4] == c[4] && Lex(b[5..], c[5..]));
    assert Lex(b[3..], c[3..]) <==> b[3] < c[3] || (b[3] == c[3] && Lex(b[4..], c[4..]));
    assert Lex(b[2..], c[2..]) <==> b[2] < c[2] || (b[2] == c[2] && Lex(b[3..], c[3..]));
  }

  /** A larger exponent outweighs any mantissa. */
  lemma ExponentOutweighs(m: nat, n: nat, e: int, f: int)
    requires m < 10_000_000_000 && n >= 100_000_000 && e < f
    ensures Mul(m as real, Scale(2 * e - 8)) < Mul(n as real, Scale(2 * f - 8))
  {
    ScaleStep(2 * e - 8);
    ScaleStep(2 * e - 7);
    ScaleMonotone(2 * e - 6, 2 * f - 8);
    var s, t := Scale(2 * e - 8), Scale(2 * f - 8);
    assert Mul(10_000_000_000.0, s) == 100_000_000.0 * (100.0 * s) && Mul(100_000_000.0, t) == 100_000_000.0 * t;
    hide Scale, Mul;
    MulOrder(m as real, 10_000_000_000.0, s);
    MulOrder(100_000_000.0, n as real, t);
  }

  /** For non-negative results, comparing the bytes compares the values. */
  lemma BytesOrdered(b: Packed, c: Packed)
    requires (b == ZERO || (Normalised(b) && !Negative(b))) && (c == ZERO || (Normalised(c) && !Negative(c)))
    ensures Lex(b, c) <==> Absolute(b) < Absolute(c)
  {
    hide Normalised, Scale, Mul, Absolute, Mantissa, Lex;
    if b != ZERO && c != ZERO {
      KeyOrder(b, c);
      MantissaOrder(b, c);
      MantissaOrder(c, b);
      AbsoluteIs(b);
      AbsoluteIs(c);
      hide Exponent, Negative;
      KeyValue(Mantissa(b), Mantissa(c), Exponent(b), Exponent(c));
    } else {
      ZeroOrder(b, c);
    }
  }

  lemma KeyOrder(b: Packed, c: Packed)
    requires Normalised(b) && !Negative(b) && Normalised(c) && !Negative(c)
    ensures Lex(b, c) <==> Exponent(b) < Exponent(c) || (Exponent(b) == Exponent(c) && Mantissa(b) < Mantissa(c))
  {
    hide Mantissa, Lex, Pair;
    LexFirst(b, c);
    MantissaOrder(b, c);
    hide Normalised;
  }

  lemma LexFirst(b: Packed, c: Packed)
    ensures Lex(b, c) <==> b[0] < c[0] || (b[0] == c[0] && Lex(b[1..], c[1..]))
  {
    hide Lex;
    LexStep(b, c);
  }

  lemma LexStep(b: seq<byte>, c: seq<byte>)
    requires |b| == |c| > 0
    ensures Lex(b, c) <==> b[0] < c[0] || (b[0] == c[0] && Lex(b[1..], c[1..]))
  {
  }

  lemma KeyValue(m: nat, n: nat, e: int, f: int)
    requires 100_000_000 <= m < 10_000_000_000 && 100_000_000 <= n < 10_000_000_000
    ensures Mul(m as real, Scale(2 * e - 8)) < Mul(n as real, Scale(2 * f - 8)) <==> e < f || (e == f && m < n)
  {
    hide Mul, Scale;
    if e < f {
      ExponentOutweighs(m, n, e, f);
    } else if f < e {
      ExponentOutweighs(n, m, f, e);
    } else {
      IntOrder(m, n);
      MulOrder(m as real, n as real, Scale(2 * e - 8));
    }
  }

  lemma ZeroOrder(b: Packed, c: Packed)
    requires b == ZERO || c == ZERO
    requires (b == ZERO || (Normalised(b) && !Negative(b))) && (c == ZERO || (Normalised(c) && !Negative(c)))
    ensures Lex(b, c) <==> Absolute(b) < Absolute(c)
  {
    hide Scale, Mantissa, Mul;
    if b == ZERO && c == ZERO {
      LexFive(b, c);
    } else if b == ZERO {
      MantissaOrder(c, c);
      MulOrder(0.0, Mantissa(c) as real, Scale(2 * Exponent(c) - 8));
      MulUnit(Scale(2 * Exponent(c) - 8));
    } else {
      MantissaOrder(b, b);
      MulOrder(0.0, Mantissa(b) as real, Scale(2 * Exponent(b) - 8));
      MulUnit(Scale(2 * Exponent(b) - 8));
    }
  }

  function SignedDecimal(d: Decimal): real { if d.negative then -Magnitude(d) else Magnitude(d) }

  function SignedPacked(b: Packed): real { if Negative(b) then -Absolute(b) else Absolute(b) }

  /** Encoding keeps the sign, except that what becomes zero has none. */
  lemma SignKept(d: Decimal)
    ensures Encoded(d).Ok? ==>
      SignedPacked(Encoded(d).value) == if d.negative then -Absolute(Encoded(d).value) else Absolute(Encoded(d).value)
  {
    hide Encoded, Fitted, Magnitude, Scale, Exponent, Normalised, Mantissa, Base100;
    RangeExact(d);
    if Encoded(d).Ok? && Encoded(d) != Ok(ZERO) {
      Ordinary(d);
      TruncationExact(d);
    } else {
      ZeroIsZero();
    }
  }

  lemma ZeroIsZero()
    ensures Absolute(ZERO) == 0.0
  {
  }

  lemma Ordinary(d: Decimal)
    requires Encoded(d).Ok? && Encoded(d) != Ok(ZERO)
    ensures Fits(d)
  {
  }

  /** Encoding never reverses the order of two decimals, whatever their signs. */
  lemma EncodingMonotone(c: Decimal, d: Decimal)
    requires SignedDecimal(c) <= SignedDecimal(d)
    ensures Encoded(c).Ok? && Encoded(d).Ok? ==> SignedPacked(Encoded(c).value) <= SignedPacked(Encoded(d).value)
  {
    hide Encoded, Magnitude, Scale, Absolute, Negative, SignedPacked;
    if Encoded(c).Ok? && Encoded(d).Ok? {
      SignKept(c);
      SignKept(d);
      AbsoluteSign(Encoded(c).value);
      AbsoluteSign(Encoded(d).value);
      MagnitudeSign(c);
      MagnitudeSign(d);
      if c.negative && d.negative { EncodingGrows(d, c); }
      if !c.negative && !d.negative { EncodingGrows(c, d); }
      if !c.negative && d.negative {
        RangeExact(c);
        RangeExact(d);
        ZeroIsZero();
      }
    }
  }

  lemma MagnitudeSign(d: Decimal)
    ensures Magnitude(d) >= 0.0
  {
    hide Scale, Mul;
    MulOrder(0.0, Value(d.digits) as real, Scale(d.power));
    MulUnit(Scale(d.power));
  }

  /** A larger magnitude is never encoded as a smaller one. */
  lemma EncodingGrows(c: Decimal, d: Decimal)
    requires Magnitude(c) <= Magnitude(d)
    ensures Encoded(c).Ok? && Encoded(d).Ok? ==> Absolute(Encoded(c).value) <= Absolute(Encoded(d).value)
  {
    hide Encoded, Magnitude, Scale, Absolute;
    RangeExact(c);
    RangeExact(d);
    if Encoded(c).Err? || Encoded(d).Err? { return; }
    if Encoded(c) != Ok(ZERO) {
      assert Encoded(d) != Ok(ZERO);
      Ordinary(c);
      Ordinary(d);
      MonotoneInRange(c, d);
    } else {
      AbsoluteSign(Encoded(d).value);
      ZeroIsZero();
    }
  }

  lemma AbsoluteSign(b: Packed)
    ensures Absolute(b) >= 0.0
  {
    hide Mantissa, Scale, Mul;
    MulOrder(0.0, Mantissa(b) as real, Scale(2 * Exponent(b) - 8));
    MulUnit(Scale(2 * Exponent(b) - 8));
  }

  lemma ScientificGap(c: Decimal, d: Decimal)
    ensures Base100(d) < Base100(c) ==> Scientific(d) + 1 <= Scientific(c)
  {
    hide Significant;
  }

  lemma MonotoneInRange(c: Decimal, d: Decimal)
    requires Fits(c) && Fits(d) && Encoded(c).Ok? && Encoded(d).Ok? && Magnitude(c) <= Magnitude(d)
    ensures Absolute(Encoded(c).value) <= Absolute(Encoded(d).value)
  {
    hide Scale, Magnitude, Encoded, Significant, Absolute, Normalised, Exponent, Negative, Scientific, Base100;
    TruncationExact(c);
    TruncationExact(d);
    MagnitudeBounds(c);
    MagnitudeBounds(d);
    ScientificGap(c, d);
    if Base100(d) < Base100(c) { ScaleMonotone(Scientific(d) + 1, Scientific(c)); }
    SameOrder(Encoded(c).value, Encoded(d).value, Magnitude(c), Magnitude(d));
  }

  lemma SameOrder(b: Packed, a: Packed, x: real, y: real)
    requires Normalised(b) && Normalised(a) && Exponent(b) <= Exponent(a) && x <= y
    requires Absolute(b) <= x && y < Absolute(a) + Scale(2 * Exponent(a) - 8)
    ensures Absolute(b) <= Absolute(a)
  {
    hide Mantissa, Scale, Mul, Exponent, Normalised, Absolute, Lex;
    MantissaOrder(b, a);
    MantissaOrder(a, b);
    AbsoluteIs(a);
    AbsoluteIs(b);
    KeyValue(Mantissa(a), Mantissa(b), Exponent(a), Exponent(b));
    if Exponent(b) == Exponent(a) {
      SameExponent(Mantissa(b) as real, Mantissa(a) as real, Scale(2 * Exponent(a) - 8), x, y);
      IntOrder(Mantissa(b), Mantissa(a));
    }
  }

  lemma SameExponent(m: real, n: real, s: real, x: real, y: real)
    requires s > 0.0 && x <= y && Mul(m, s) <= x && y < Mul(n, s) + s
    ensures m < n + 1.0
  {
    hide Mul;
    MulPlus(n, 1.0, s);
    MulUnit(s);
    MulOrder(m, n + 1.0, s);
  }

  // ----- rounding to an integer -----

  const MAX_INTEGER: nat := 0x8000_0000_0000_0000_0000_0000_0000_0000

  function Product(m: nat, factor: nat): Option<nat> {
    if factor >= 2 * MAX_INTEGER || m * factor >= MAX_INTEGER then None else Some(m * factor)
  }

  function HalfUp(m: nat, unit: nat): nat
    requires unit > 0
  {
    m / unit + if 2 * (m % unit) >= unit then 1 else 0
  }

  /** Rounded magnitude, or None when it does not fit: whole pairs are multiplied up, fractions rounded half up. */
  function RoundedMagnitude(b: Packed): Option<nat> {
    if b[0] == 0 then Some(0)
    else
      var scale := Exponent(b) - 4;
      if scale >= 0 then Product(Mantissa(b), Ten(2 * scale))
      else if -scale >= 6 then Some(0)
      else Some(HalfUp(Mantissa(b), Ten(-2 * scale)))
  }

  /** Whether nothing was rounded away. */
  function IsExact(b: Packed): bool {
    b[0] == 0 ||
    var scale := Exponent(b) - 4;
    scale >= 0 || (-scale < 6 && Mantissa(b) % Ten(-2 * scale) == 0)
  }

  datatype RealInteger = RealInteger(value: int, exact: bool)

  function RoundedInteger(b: Packed): Option<RealInteger> {
    var m := RoundedMagnitude(b);
    if m.None? then None
    else
      var v: int := m.value;
      Some(RealInteger(if Negative(b) && b[0] != 0 then -v else v, IsExact(b)))
  }

  // ----- when the integer is exact -----

  predicate Whole(x: real) { x == x.Floor as real }

  lemma WholeIs(x: real, n: int)
    requires x == n as real
    ensures Whole(x)
  {
    assert x.Floor == n;
  }

  /** A number of units of 1/`unit` is whole exactly when the units divide evenly. */
  lemma WholeUnits(m: nat, unit: nat, x: real)
    requires unit > 0 && Mul(x, unit as real) == m as real
    ensures Whole(x) <==> m % unit == 0
    ensures m % unit == 0 ==> x == (m / unit) as real
  {
    var q := m / unit;
    assert m == q * unit + m % unit;
    if m % unit == 0 {
      assert Mul(q as real, unit as real) == m as real;
      hide Mul;
      MulOrder(x, q as real, unit as real);
      MulOrder(q as real, x, unit as real);
      WholeIs(x, q);
    }
    if Whole(x) {
      assert x.Floor * unit == m;
      Multiple(x.Floor, unit);
    }
  }

  lemma Multiple(k: int, unit: nat)
    requires unit > 0
    ensures k * unit % unit == 0
  {
    DivMod(k * unit, unit);
    NoFraction(k - k * unit / unit, unit);
  }

  lemma DivMod(x: int, unit: nat)
    requires unit > 0
    ensures x == x / unit * unit + x % unit
  {
  }

  lemma NoFraction(k: int, unit: nat)
    ensures -1 < k * unit < unit ==> k * unit == 0
  {
    if k > 0 { Grows(1, k, unit); }
    if k < 0 { Grows(k, -1, unit); }
  }

  lemma Grows(j: int, k: int, unit: nat)
    requires j <= k
    ensures j * unit <= k * unit
  {
  }

  /** Six pairs below the point leave a fraction of a mantissa of five pairs, unless it is zero. */
  lemma FractionOnly(b: Packed)
    requires b[0] != 0 && Exponent(b) <= -2
    ensures Whole(Absolute(b)) <==> Mantissa(b) == 0
  {
    PairsBelow(b);
    var m, s := Mantissa(b), Scale(2 * Exponent(b) - 8);
    ScaleMonotone(2 * Exponent(b) - 8, -12);
    ScaleIsTen(12);
    ScaleAdd(-12, 12);
    ScaleZero();
    assert Ten(6) == 1_000_000 && Ten(12) == 1_000_000_000_000;
    hide Scale, Ten, Mantissa, Pair, Exponent;
    if m == 0 {
      WholeIs(Absolute(b), 0);
    } else {
      assert Mul(m as real, s) > 0.0 by { MulOrder(0.0, m as real, s); MulUnit(s); }
      assert Mul(m as real, s) < 1.0 by { SmallProduct(m as real, s, Scale(-12)); }
    }
  }

  lemma SmallProduct(m: real, s: real, t: real)
    requires 0.0 < s <= t && Mul(t, 1_000_000_000_000.0) == 1.0 && 0.0 < m < 1_000_000_000_000.0
    ensures Mul(m, s) < 1.0
  {
    assert m * s <= m * t;
    assert m * t < 1_000_000_000_000.0 * t;
  }

  lemma PairsBelow(b: Packed)
    ensures Mantissa(b) < 1_000_000_000_000
  {
    forall i | 1 <= i < 6 ensures Pair(b[i]) < 166 { }
    hide Pair;
  }

  lemma ExactUp(b: Packed)
    requires b[0] != 0 && Exponent(b) >= 4
    ensures Whole(Absolute(b)) && Absolute(b) == (Mantissa(b) * Ten(2 * Exponent(b) - 8)) as real
  {
    hide Ten, Scale, Mantissa, Exponent, Whole;
    ScaleIsTen(2 * Exponent(b) - 8);
    WholeIs(Absolute(b), Mantissa(b) * Ten(2 * Exponent(b) - 8));
  }

  lemma ExactDown(b: Packed)
    requires b[0] != 0 && Exponent(b) < 4
    ensures Mul(Absolute(b), Ten(8 - 2 * Exponent(b)) as real) == Mantissa(b) as real
    ensures var unit := Ten(8 - 2 * Exponent(b));
      && (Whole(Absolute(b)) <==> Mantissa(b) % unit == 0)
      && (Mantissa(b) % unit == 0 ==> Absolute(b) == (Mantissa(b) / unit) as real)
  {
    hide Ten, Scale, Mantissa, Exponent, Whole, Mul;
    var e := 2 * Exponent(b) - 8;
    ScaleIsTen(-e);
    ScaleAdd(e, -e);
    ScaleZero();
    MulAssociate(Mantissa(b) as real, Scale(e), Scale(-e));
    MulUnit(Mantissa(b) as real);
    WholeUnits(Mantissa(b), Ten(-e), Absolute(b));
  }

  /** The flag is set exactly for whole values, except that a denormal zero far below the point is called inexact. */
  lemma ExactOnWhole(b: Packed)
    ensures IsExact(b) <==> Whole(Absolute(b)) && (b[0] != 0 && Exponent(b) <= -2 ==> Mantissa(b) > 0)
  {
    hide Ten, Scale, Mantissa, Exponent, Whole, Mul;
    if b[0] == 0 {
      WholeIs(Absolute(b), 0);
    } else if Exponent(b) >= 4 {
      ExactUp(b);
    } else if Exponent(b) <= -2 {
      FractionOnly(b);
    } else {
      ExactDown(b);
    }
  }

  lemma ExactValue(b: Packed)
    requires IsExact(b) && RoundedMagnitude(b).Some?
    ensures Absolute(b) == RoundedMagnitude(b).value as real
  {
    hide Ten, Scale, Mantissa, Exponent, Whole, Mul;
    if b[0] != 0 {
      if Exponent(b) >= 4 { ExactUp(b); } else { ExactDown(b); }
    }
  }

  /** A number is refused exactly when its magnitude needs more than 127 bits. */
  lemma TooLargeExactly(b: Packed)
    requires b == ZERO || Normalised(b)
    ensures RoundedInteger(b).None? <==> Absolute(b) >= 170141183460469231731687303715884105728.0
  {
    hide Ten, Scale, Mantissa, Exponent, Whole, Mul, Normalised, IsExact, HalfUp;
    if b[0] != 0 {
      MantissaOrder(b, b);
      if Exponent(b) >= 4 {
        ExactUp(b);
        ProductTooLarge(Mantissa(b), Ten(2 * Exponent(b) - 8));
      } else {
        ExactDown(b);
        AbsoluteSign(b);
        NoSmaller(Absolute(b), Ten(8 - 2 * Exponent(b)) as real);
      }
    }
  }

  lemma ProductTooLarge(m: nat, factor: nat)
    requires m > 0
    ensures Product(m, factor).None? <==> (m * factor) as real >= MAX_INTEGER as real
  {
    Grows(1, m, factor);
  }

  lemma NoSmaller(x: real, u: real)
    requires x >= 0.0 && u >= 1.0
    ensures x <= Mul(x, u)
  {
    assert x * (u - 1.0) >= 0.0;
  }

  lemma WholeOpposite(x: real)
    ensures Whole(-x) <==> Whole(x)
  {
    if Whole(x) { WholeIs(-x, -x.Floor); }
    if Whole(-x) { WholeIs(x, -(-x).Floor); }
  }

  /**
   * The flag of a rounded result tells exactly whether the encoded value is an integer, and then that integer is the
   * result.
   */
  lemma ExactIsWhole(b: Packed)
    requires (b == ZERO || Normalised(b)) && RoundedInteger(b).Some?
    ensures RoundedInteger(b).value.exact <==> Whole(SignedPacked(b))
    ensures RoundedInteger(b).value.exact ==> SignedPacked(b) == RoundedInteger(b).value.value as real
  {
    hide Ten, Scale, Mantissa, Exponent, Mul, Normalised, Absolute, IsExact, RoundedMagnitude, Whole;
    ExactOnWhole(b);
    WholeOpposite(Absolute(b));
    if b[0] != 0 { MantissaOrder(b, b); }
    if IsExact(b) { ExactValue(b); }
  }

  lemma RoundsCut(m: nat, unit: nat, half: nat, x: real)
    requires unit == 2 * half && half > 0 && m as real <= Mul(x, unit as real) < m as real + 1.0
    ensures HalfUp(m, unit) as real - 0.5 <= x < HalfUp(m, unit) as real + 0.5
  {
    var q, rest := m / unit, m % unit;
    var u, y := unit as real, Mul(x, unit as real);
    var qu := Mul(q as real, u);
    assert m as real == qu + rest as real;
    MulPlus(q as real, 0.5, u);
    MulPlus(q as real, -0.5, u);
    MulPlus(q as real, 1.5, u);
    assert Mul(0.5, u) == 0.5 * u && Mul(-0.5, u) == -0.5 * u && Mul(1.5, u) == 1.5 * u;
    hide Mul;
    assert 0.5 * u == half as real;
    MulOrder(q as real + 0.5, x, u);
    MulOrder(x, q as real + 0.5, u);
    MulOrder(x, q as real + 1.5, u);
    MulOrder(q as real - 0.5, x, u);
    assert q as real + -0.5 == q as real - 0.5;
    if 2 * rest >= unit {
      assert qu + half as real <= y;
      assert y < qu + 1.5 * u;
    } else {
      assert rest + 1 <= half;
      assert y < qu + half as real && qu - half as real <= y;
    }
  }

  /**
   * Below 10^8, cutting the decimal to the mantissa and then rounding gives the decimal itself rounded, halves away
   * from zero: there is no double rounding.
   */
  lemma NoDoubleRounding(d: Decimal)
    requires Magnitude(d) < Scale(8)
    ensures Encoded(d).Ok? && RoundedInteger(Encoded(d).value).Some?
    ensures var v := RoundedInteger(Encoded(d).value).value.value;
      var m := if v < 0 then -v else v;
      m as real - 0.5 <= Magnitude(d) < m as real + 0.5 && (v < 0 ==> d.negative) && (v > 0 ==> !d.negative)
  {
    RangeExact(d);
    ScaleMonotone(8, 100);
    if Encoded(d) == Ok(ZERO) {
      TinyRounds(d, -98);
    } else {
      TruncationExact(d);
      MagnitudeBounds(d);
      if Scientific(d) >= 8 { ScaleMonotone(8, Scientific(d)); }
      RoundsInRange(d);
    }
  }

  lemma TinyRounds(d: Decimal, k: int)
    requires k <= -1 && Magnitude(d) < Scale(k)
    ensures 0.0 <= Magnitude(d) < 0.5
  {
    ScaleMonotone(k, -1);
    assert Scale(-1) == 0.1;
    hide Scale, Value, Mul;
    MulOrder(0.0, Value(d.digits) as real, Scale(d.power));
    MulUnit(Scale(d.power));
  }

  lemma RoundsInRange(d: Decimal)
    requires Fits(d) && Encoded(d).Ok? && Base100(d) < 4
    ensures var b := Encoded(d).value;
      RoundedMagnitude(b).Some?
        && RoundedMagnitude(b).value as real - 0.5 <= Magnitude(d) < RoundedMagnitude(b).value as real + 0.5
  {
    hide Scale, Magnitude, Mantissa, Fitted, Normalised, Significant, Mul, Scientific, HalfUp, Ten, Absolute;
    TruncationExact(d);
    var b, e := Encoded(d).value, Base100(d);
    PackHolds(d.negative, e, Fitted(d));
    if e <= -2 {
      MagnitudeBounds(d);
      ScientificBelow(d);
      ScaleMonotone(Scientific(d) + 1, -1);
      TinyRounds(d, -1);
    } else {
      hide Exponent, Base100, Encoded;
      RoundsUp(d, b, e);
    }
  }

  lemma ScientificBelow(d: Decimal)
    ensures Base100(d) <= -2 ==> Scientific(d) + 1 <= -1
  {
    hide Significant;
  }

  lemma RoundsUp(d: Decimal, b: Packed, e: int)
    requires -2 < e < 4 && Exponent(b) == e && b[0] != 0
    requires Absolute(b) <= Magnitude(d) < Absolute(b) + Scale(2 * e - 8)
    ensures RoundedMagnitude(b) == Some(HalfUp(Mantissa(b), Ten(8 - 2 * e)))
    ensures HalfUp(Mantissa(b), Ten(8 - 2 * e)) as real - 0.5 <= Magnitude(d) < HalfUp(Mantissa(b), Ten(8 - 2 * e)) as real + 0.5
  {
    var unit := Ten(8 - 2 * e);
    assert unit == 10 * Ten(7 - 2 * e);
    ScaleIsTen(8 - 2 * e);
    ScaleAdd(2 * e - 8, 8 - 2 * e);
    ScaleZero();
    hide Scale, Magnitude, Mantissa, Mul, HalfUp, Ten;
    CutUp(Mantissa(b) as real, Scale(2 * e - 8), unit as real, Magnitude(d));
    RoundsCut(Mantissa(b), unit, 5 * Ten(7 - 2 * e), Magnitude(d));
  }

  lemma CutUp(m: real, s: real, u: real, x: real)
    requires s > 0.0 && u > 0.0 && Mul(s, u) == 1.0 && Mul(m, s) <= x < Mul(m, s) + s
    ensures m <= Mul(x, u) < m + 1.0
  {
    hide Mul;
    MulOrder(Mul(m, s), x, u);
    MulOrder(x, Mul(m, s) + s, u);
    MulPlus(Mul(m, s), s, u);
    MulAssociate(m, s, u);
    MulUnit(m);
  }
}
