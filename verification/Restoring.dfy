/** Restoring division on numbers, independent of any machine and of the word width. */
module Restoring {
  import opened Bits

  function Bit(b: bool): nat { if b then 1 else 0 }

  /**
   * One step on a `width`-bit register `q`, unread dividend bits above quotient bits, and a remainder register of
   * `narrow` bits. Shifting pushes the top bit of `q` into the remainder and the top bit of that into the carry;
   * the carry forces the subtraction even if what is left in the register is small.
   */
  function DivStep(narrow: nat, width: nat, d: nat, r: nat, q: nat): (nat, nat)
    requires width > 0
  {
    var wide := 2 * r + Bit(q >= Pow2(width - 1));
    var carry, low := wide >= Pow2(narrow), wide % Pow2(narrow);
    var q2 := 2 * q % Pow2(width);
    if carry || low >= d then ((low - d) % Pow2(narrow), q2 + 1) else (low, q2)
  }

  /** `steps` division steps in a row. */
  function Divide(narrow: nat, width: nat, d: nat, r: nat, q: nat, steps: nat): (nat, nat)
    requires width > 0
    decreases steps
  {
    if steps == 0 then (r, q)
    else
      var (r2, q2) := DivStep(narrow, width, d, r, q);
      Divide(narrow, width, d, r2, q2, steps - 1)
  }

  /** What is left of a number below `2 * p` in a register of `p` values. */
  lemma Wraps(x: nat, p: nat)
    requires x < 2 * p
    ensures x % p == if x >= p then x - p else x
  {
    DivModUnique(x, p, if x >= p then 1 else 0, if x >= p then x - p else x);
  }

  lemma WrapsBelow(x: int, p: nat)
    requires 0 - p <= x < 0
    ensures x % p == x + p
  {
    DivModUnique(x, p, -1, x + p);
  }

  /** The register and its carry bit do what an unbounded remainder would do. */
  lemma CarrySuffices(narrow: nat, width: nat, d: nat, r: nat, q: nat)
    requires width > 0 && r < d < Pow2(narrow) && q < Pow2(width)
    ensures var bit := Bit(q >= Pow2(width - 1));
      var sub := Bit(2 * r + bit >= d);
      DivStep(narrow, width, d, r, q) == (2 * r + bit - sub * d, 2 * q - bit * Pow2(width) + sub)
  {
    var h, p := Pow2(width - 1), Pow2(narrow);
    assert Pow2(width) == 2 * h;
    hide Pow2;
    var bit := Bit(q >= h);
    var wide := 2 * r + bit;
    Wraps(wide, p);
    Wraps(2 * q, 2 * h);
    var low := wide % p;
    if wide >= d {
      if low < d { WrapsBelow(low - d, p); } else { Wraps(low - d, p); }
    }
  }

  /** The bit is needed: when it is set, the register alone would call for no subtraction. */
  lemma CarryNeeded(narrow: nat, d: nat, r: nat, bit: nat)
    requires r < d < Pow2(narrow) && bit <= 1 && 2 * r + bit >= Pow2(narrow)
    ensures (2 * r + bit) % Pow2(narrow) < d
  {
    hide Pow2;
    Wraps(2 * r + bit, Pow2(narrow));
  }

  /** What shift, comparison and subtraction leave in the registers, with carry `c` and borrow, is a step. */
  lemma IsDivStep(narrow: nat, width: nat, d: nat, r: nat, q: nat, c: nat, r1: nat, q1: nat, r2: nat, q2: nat,
      borrow: nat)
    requires width > 0 && r < d < Pow2(narrow) && q < Pow2(width)
    requires c <= 1 && borrow <= 1 && r1 < Pow2(narrow) && r2 < Pow2(narrow)
    requires var bit := Bit(q >= Pow2(width - 1));
      q1 == 2 * q - Pow2(width) * bit && Pow2(narrow) * c + r1 == 2 * r + bit
    requires Pow2(narrow) * c + r1 >= d ==> q2 == q1 + 1 && r2 == r1 - d + Pow2(narrow) * borrow
    requires Pow2(narrow) * c + r1 < d ==> q2 == q1 && r2 == r1
    ensures (r2, q2) == DivStep(narrow, width, d, r, q) && r2 < d
  {
    CarrySuffices(narrow, width, d, r, q);
    hide Pow2, DivStep;
    if Pow2(narrow) * c + r1 >= d {
      assert borrow == c;
    } else {
      assert c == 0;
    }
  }

  /**
   * State with `k == 2^left` dividend values unread and `p` the power of two above the quotient so far:
   * `m` is the part of the dividend already read, `low` the rest, `u` the quotient of `m`.
   */
  ghost predicate Partway(n: nat, d: nat, k: nat, p: nat, r: nat, q: nat, m: nat, low: nat, u: nat) {
    && low < k && n == m * k + low
    && r < d && m == d * u + r
    && u <= m < p && q == low * p + u
  }

  lemma Below(a: int, b: int, c: nat)
    requires a <= b
    ensures a * c <= b * c
  {
  }

  lemma TopBitTellsLow(n: nat, d: nat, k: nat, p: nat, r: nat, q: nat, m: nat, low: nat, u: nat)
    requires Partway(n, d, 2 * k, p, r, q, m, low, u)
    ensures q < 2 * (k * p)
    ensures q >= k * p <==> low >= k
  {
    Below(low, 2 * k - 1, p);
    assert (2 * k - 1) * p == 2 * (k * p) - p;
    if low >= k {
      Below(k, low, p);
    } else {
      Below(low, k - 1, p);
      assert (k - 1) * p == k * p - p;
    }
  }

  /** The shift: one dividend bit moves from `low` to `m`, the quotient doubles. */
  lemma ShiftPart(low: nat, k: nat, p: nat, m: nat, bit: nat)
    requires bit == Bit(low >= k) && low < 2 * k
    ensures low >= bit * k
    ensures m * (2 * k) + low == (2 * m + bit) * k + (low - bit * k)
    ensures 2 * (low * p) == (low - bit * k) * (2 * p) + (if bit == 1 then 2 * (k * p) else 0)
  {
    if bit == 1 {
      assert (low - k) * (2 * p) == 2 * (low * p) - 2 * (k * p);
      assert (2 * m + 1) * k == m * (2 * k) + k;
    }
  }

  /** The conditional subtraction keeps `m == d * u + r` and the range of `r`. */
  lemma SubtractPart(m: nat, d: nat, u: nat, r: nat, bit: nat, sub: nat)
    requires r < d && m == d * u + r && u <= m && bit <= 1 && sub == Bit(2 * r + bit >= d)
    ensures 2 * r + bit >= sub * d
    ensures 2 * m + bit == d * (2 * u + sub) + (2 * r + bit - sub * d)
    ensures 2 * r + bit - sub * d < d && 2 * u + sub <= 2 * m + bit
  {
    Below(1, d, u);
    assert d * (2 * u + sub) == 2 * (d * u) + sub * d;
    assert u == m ==> r == 0;
  }

  lemma NextPart(n: nat, d: nat, k: nat, p: nat, r: nat, q: nat, m: nat, low: nat, u: nat, bit: nat, sub: nat)
    requires Partway(n, d, 2 * k, p, r, q, m, low, u)
    requires bit == Bit(low >= k) && sub == Bit(2 * r + bit >= d)
    ensures low >= bit * k && 2 * r + bit >= sub * d
    ensures var q2 := 2 * q + sub - (if bit == 1 then 2 * (k * p) else 0);
      q2 >= 0 && Partway(n, d, k, 2 * p, 2 * r + bit - sub * d, q2, 2 * m + bit, low - bit * k, 2 * u + sub)
  {
    ShiftPart(low, k, p, m, bit);
    SubtractPart(m, d, u, r, bit, sub);
    Below(0, low - bit * k, 2 * p);
  }

  /** What a division step does to the pair, said through the parts. */
  lemma StepOnParts(narrow: nat, width: nat, n: nat, d: nat, k: nat, p: nat, r: nat, q: nat, m: nat, low: nat, u: nat)
    returns (r2: nat, q2: nat, m2: nat, low2: nat, u2: nat)
    requires width > 0 && Pow2(width - 1) == k * p && d < Pow2(narrow)
    requires Partway(n, d, 2 * k, p, r, q, m, low, u)
    ensures DivStep(narrow, width, d, r, q) == (r2, q2)
    ensures Partway(n, d, k, 2 * p, r2, q2, m2, low2, u2)
  {
    var bit := Bit(low >= k);
    var sub := Bit(2 * r + bit >= d);
    TopBitTellsLow(n, d, k, p, r, q, m, low, u);
    NextPart(n, d, k, p, r, q, m, low, u, bit, sub);
    assert Pow2(width) == 2 * (k * p);
    hide Pow2, DivStep;
    CarrySuffices(narrow, width, d, r, q);
    r2, q2 := 2 * r + bit - sub * d, 2 * q + sub - (if bit == 1 then 2 * (k * p) else 0);
    m2, low2, u2 := 2 * m + bit, low - bit * k, 2 * u + sub;
  }

  lemma Pow2Split(a: nat, b: nat)
    ensures Pow2(a + b) == Pow2(a) * Pow2(b)
  {
    if a > 0 { Pow2Split(a - 1, b); }
  }

  lemma {:induction false} DivideFrom(narrow: nat, width: nat, n: nat, d: nat, left: nat, r: nat, q: nat, m: nat,
      low: nat, u: nat)
      returns (rem: nat, quot: nat)
    requires 0 < width && left <= width && d < Pow2(narrow)
    requires Partway(n, d, Pow2(left), Pow2(width - left), r, q, m, low, u)
    ensures Divide(narrow, width, d, r, q, left) == (rem, quot) && n == d * quot + rem && rem < d
    decreases left
  {
    if left == 0 {
      rem, quot := r, u;
    } else {
      hide Partway, DivStep;
      var k, p := Pow2(left - 1), Pow2(width - left);
      Pow2Split(left - 1, width - left);
      assert Pow2(left) == 2 * k && Pow2(width - (left - 1)) == 2 * p;
      hide Pow2;
      var r2, q2, m2, low2, u2 := StepOnParts(narrow, width, n, d, k, p, r, q, m, low, u);
      rem, quot := DivideFrom(narrow, width, n, d, left - 1, r2, q2, m2, low2, u2);
    }
  }

  lemma Sign(d: nat, e: int)
    requires 0 - d < d * e < d
    ensures e == 0
  {
  }

  lemma DivModUnique(x: int, d: nat, q: int, r: int)
    requires d > 0 && x == d * q + r && 0 <= r < d
    ensures x / d == q && x % d == r
  {
    var e := x / d - q;
    assert d * e == r - x % d;
    Sign(d, e);
  }

  /**
   * Starting from a cleared remainder, one step per dividend bit yields remainder and quotient, for registers of any
   * widths: the remainder register need not be wider than the divisor.
   */
  lemma DivisionAtAnyWidth(narrow: nat, width: nat, n: nat, d: nat)
    requires 0 < width && n < Pow2(width) && 0 < d < Pow2(narrow)
    ensures Divide(narrow, width, d, 0, n, width) == (n % d, n / d)
  {
    var rem, quot := DivideFrom(narrow, width, n, d, width, 0, n, 0, n, 0);
    DivModUnique(n, d, quot, rem);
  }
}
