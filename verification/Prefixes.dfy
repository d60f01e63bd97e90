/** Bit-level facts about the unsigned words that the tree kernels compare: exclusive or,
    count of leading zeros, shifts, and the length of a common binary prefix.

    A word of `width` bits is a natural number whose `width`-fold halving is zero. */
module Prefixes {

  /** The word shifted right by `bits`. */
  function ShiftRight(a: nat, bits: nat): nat
  {
    if bits == 0 then a else ShiftRight(a / 2, bits - 1)
  }

  /** The word shifted left by `bits`, without a width limit. */
  function ShiftLeft(a: nat, bits: nat): nat
    decreases bits
  {
    if bits == 0 then a else ShiftLeft(2 * a, bits - 1)
  }

  predicate FitsIn(a: nat, width: nat)
  {
    ShiftRight(a, width) == 0
  }

  /** Exclusive or of two words, bit by bit. */
  function Xor(a: nat, b: nat): nat
    decreases a + b
  {
    if a == 0 && b == 0 then 0 else 2 * Xor(a / 2, b / 2) + (a + b) % 2
  }

  /** Number of leading zero bits of a word of the given width. */
  function CountLeadingZeros(a: nat, width: nat): nat
    requires FitsIn(a, width)
  {
    if a == 0 then width else CountLeadingZeros(a / 2, width - 1)
  }

  /** Number of leading bits on which two words of the given width agree. */
  function CommonPrefix(a: nat, b: nat, width: nat): nat
    requires FitsIn(a, width) && FitsIn(b, width)
  {
    if a == b then width else CommonPrefix(a / 2, b / 2, width - 1)
  }

  lemma {:induction false} XorOfHalves(a: nat, b: nat)
    ensures Xor(a, b) == 2 * Xor(a / 2, b / 2) + (a + b) % 2
  {
  }

  lemma {:induction false} SameByHalves(a: nat, b: nat)
    ensures a == b <==> a / 2 == b / 2 && (a + b) % 2 == 0
  {
    var p, q := a / 2, b / 2;
    assert a == 2 * p || a == 2 * p + 1;
    assert b == 2 * q || b == 2 * q + 1;
  }

  lemma {:induction false} XorFits(a: nat, b: nat, width: nat)
    requires FitsIn(a, width) && FitsIn(b, width)
    ensures FitsIn(Xor(a, b), width)
    ensures Xor(a, b) == 0 <==> a == b
    decreases width
  {
    if width > 0 {
      XorFits(a / 2, b / 2, width - 1);
      XorOfHalves(a, b);
      SameByHalves(a, b);
    }
  }

  /** The number of leading zeros of an exclusive or is the length of the common prefix. */
  lemma {:induction false} LeadingZerosOfXor(a: nat, b: nat, width: nat)
    requires FitsIn(a, width) && FitsIn(b, width)
    ensures FitsIn(Xor(a, b), width)
    ensures CountLeadingZeros(Xor(a, b), width) == CommonPrefix(a, b, width)
    decreases width
  {
    XorFits(a, b, width);
    if a != b {
      LeadingZerosOfXor(a / 2, b / 2, width - 1);
      XorOfHalves(a, b);
    }
  }

  lemma {:induction false} CommonPrefixBounds(a: nat, b: nat, width: nat)
    requires FitsIn(a, width) && FitsIn(b, width)
    ensures 0 <= CommonPrefix(a, b, width) <= width
    ensures CommonPrefix(a, b, width) == width <==> a == b
    ensures CommonPrefix(a, b, width) == CommonPrefix(b, a, width)
    decreases width
  {
    if a != b {
      CommonPrefixBounds(a / 2, b / 2, width - 1);
    }
  }

  /** Sorted words behave like leaves of a trie: the prefix shared by the outer two of three
      words is the shorter of the two inner ones. */
  lemma {:induction false} CommonPrefixOfOuter(a: nat, b: nat, c: nat, width: nat)
    requires FitsIn(a, width) && FitsIn(b, width) && FitsIn(c, width)
    requires a <= b <= c
    ensures var ab, bc := CommonPrefix(a, b, width), CommonPrefix(b, c, width);
            CommonPrefix(a, c, width) == if ab < bc then ab else bc
    decreases width
  {
    CommonPrefixBounds(a, c, width);
    if a != b && b != c {
      CommonPrefixOfOuter(a / 2, b / 2, c / 2, width - 1);
    }
  }

  /** Two neighbouring gaps of strictly increasing words are never equally deep. */
  lemma {:induction false} NeighbouringPrefixesDiffer(a: nat, b: nat, c: nat, width: nat)
    requires FitsIn(a, width) && FitsIn(b, width) && FitsIn(c, width)
    requires a < b < c
    ensures CommonPrefix(a, b, width) != CommonPrefix(b, c, width)
    decreases width
  {
    if a / 2 == b / 2 {
      CommonPrefixBounds(b / 2, c / 2, width - 1);
    } else if b / 2 == c / 2 {
      CommonPrefixBounds(a / 2, b / 2, width - 1);
    } else {
      NeighbouringPrefixesDiffer(a / 2, b / 2, c / 2, width - 1);
    }
  }

  /** Words agree after dropping `bits` low bits exactly when their common prefix reaches
      that far. */
  lemma {:induction false} SharedPrefixIsSharedShift(a: nat, b: nat, width: nat, bits: nat)
    requires FitsIn(a, width) && FitsIn(b, width) && bits <= width
    ensures ShiftRight(a, bits) == ShiftRight(b, bits)
            <==> CommonPrefix(a, b, width) >= width - bits
    decreases bits
  {
    CommonPrefixBounds(a, b, width);
    if bits > 0 && a != b {
      SharedPrefixIsSharedShift(a / 2, b / 2, width - 1, bits - 1);
    }
  }

  lemma {:induction false} ShiftRightOfZero(bits: nat)
    ensures ShiftRight(0, bits) == 0
  {
    if bits > 0 {
      ShiftRightOfZero(bits - 1);
    }
  }

  lemma {:induction false} ShiftRightMonotone(a: nat, b: nat, bits: nat)
    requires a <= b
    ensures ShiftRight(a, bits) <= ShiftRight(b, bits)
    decreases bits
  {
    if bits > 0 {
      ShiftRightMonotone(a / 2, b / 2, bits - 1);
    }
  }

  lemma {:induction false} ShiftRightTwice(a: nat, first: nat, second: nat)
    ensures ShiftRight(ShiftRight(a, first), second) == ShiftRight(a, first + second)
    decreases first
  {
    if first > 0 {
      ShiftRightTwice(a / 2, first - 1, second);
    }
  }

  lemma {:induction false} ShiftRightUndoesShiftLeft(a: nat, bits: nat)
    ensures ShiftRight(ShiftLeft(a, bits), bits) == a
    decreases bits
  {
    if bits > 0 {
      ShiftRightUndoesShiftLeft(2 * a, bits - 1);
      ShiftRightTwice(ShiftLeft(a, bits), bits - 1, 1);
      assert ShiftRight(2 * a, 1) == a;
    }
  }

  lemma {:induction false} FitsInWider(a: nat, narrow: nat, wide: nat)
    requires FitsIn(a, narrow) && narrow <= wide
    ensures FitsIn(a, wide)
  {
    ShiftRightTwice(a, narrow, wide - narrow);
    ShiftRightOfZero(wide - narrow);
  }

  function Pow2(n: nat): nat
  {
    if n == 0 then 1 else 2 * Pow2(n - 1)
  }

  /** The numbers of so many bits are those below the power. */
  lemma {:induction false} FitsBelowPower(a: nat, bits: nat)
    ensures FitsIn(a, bits) <==> a < Pow2(bits)
    decreases bits
  {
    if bits > 0 {
      FitsBelowPower(a / 2, bits - 1);
    }
  }
}
