/** Bitwise operators on bounded naturals, one bit at a time from the top. */
module Bits {
  datatype BitOp = BitAnd | BitOr | BitXor

  function Pow2(n: nat): (r: nat)
    ensures r >= 1
  {
    if n == 0 then 1 else 2 * Pow2(n - 1)
  }

  lemma Pow2Values()
    ensures Pow2(7) == 0x80 && Pow2(8) == 0x100 && Pow2(15) == 0x8000 && Pow2(16) == 0x10000
  {
    assert Pow2(4) == 16;
    assert Pow2(8) == 16 * Pow2(4);
    assert Pow2(12) == 16 * Pow2(8);
  }

  function OneBit(op: BitOp, p: bool, q: bool): bool {
    match op
    case BitAnd => p && q
    case BitOr => p || q
    case BitXor => p != q
  }

  function Bitwise(op: BitOp, a: nat, b: nat, width: nat): (r: nat)
    requires a < Pow2(width) && b < Pow2(width)
    ensures r < Pow2(width)
    decreases width
  {
    if width == 0 then 0
    else
      var h := Pow2(width - 1);
      var rest := Bitwise(op, if a >= h then a - h else a, if b >= h then b - h else b, width - 1);
      if OneBit(op, a >= h, b >= h) then h + rest else rest
  }

  /** A union is zero exactly when both operands are. */
  lemma {:induction false} OrIsZero(a: nat, b: nat, width: nat)
    requires a < Pow2(width) && b < Pow2(width)
    ensures Bitwise(BitOr, a, b, width) == 0 <==> a == 0 && b == 0
  {
    if width > 0 {
      var h := Pow2(width - 1);
      OrIsZero(if a >= h then a - h else a, if b >= h then b - h else b, width - 1);
    }
  }

  /** The top bit of an exclusive or tells whether the operands' top bits differ. */
  lemma XorTopBit(a: nat, b: nat, width: nat)
    requires width > 0 && a < Pow2(width) && b < Pow2(width)
    ensures Bitwise(BitXor, a, b, width) >= Pow2(width - 1) <==> (a >= Pow2(width - 1)) != (b >= Pow2(width - 1))
  {
  }
}
