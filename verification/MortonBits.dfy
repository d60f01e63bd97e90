/** Morton keys: the bits of three quantised coordinates interleaved, first as octal digits of
    a natural number, then as the shift-and-mask sequence on 32-bit words. */
module MortonBits {
  import opened Prefixes

  /** One octal digit of the key for each bit of the coordinates: x above y above z. */
  function Interleave(x: nat, y: nat, z: nat, bits: nat): nat
    decreases bits
  {
    if bits == 0 then 0
    else 8 * Interleave(x / 2, y / 2, z / 2, bits - 1) + 4 * (x % 2) + 2 * (y % 2) + z % 2
  }

  lemma ShiftThree(a: nat, digit: nat)
    requires digit < 8
    ensures ShiftRight(8 * a + digit, 3) == a
  {
    var b := 8 * a + digit;
    assert ShiftRight(b, 3) == ShiftRight(b / 2, 2) == ShiftRight(b / 2 / 2, 1) == b / 2 / 2 / 2;
  }

  /** Dropping octal digits of the key drops as many bits of every coordinate. */
  lemma {:induction false} ShiftOfInterleave(x: nat, y: nat, z: nat, bits: nat, dropped: nat)
    requires dropped <= bits
    ensures ShiftRight(Interleave(x, y, z, bits), 3 * dropped)
            == Interleave(ShiftRight(x, dropped), ShiftRight(y, dropped), ShiftRight(z, dropped), bits - dropped)
    decreases dropped
  {
    if dropped > 0 {
      var rest := Interleave(x / 2, y / 2, z / 2, bits - 1);
      ShiftThree(rest, 4 * (x % 2) + 2 * (y % 2) + z % 2);
      ShiftRightTwice(Interleave(x, y, z, bits), 3, 3 * (dropped - 1));
      ShiftOfInterleave(x / 2, y / 2, z / 2, bits - 1, dropped - 1);
    }
  }

  /** The key of coordinates of so many bits has three times as many. */
  lemma InterleaveFits(x: nat, y: nat, z: nat, bits: nat)
    ensures FitsIn(Interleave(x, y, z, bits), 3 * bits)
  {
    ShiftOfInterleave(x, y, z, bits, bits);
  }

  /** The last octal digit of a key holds the last bits of the coordinates. */
  lemma LastDigit(x: nat, y: nat, z: nat, bits: nat)
    requires bits > 0
    ensures Interleave(x, y, z, bits) % 8 == 4 * (x % 2) + 2 * (y % 2) + z % 2
  {
  }

  /** Equal keys come from equal coordinates. */
  lemma {:induction false} InterleaveIsInjective(x: nat, y: nat, z: nat, x': nat, y': nat, z': nat, bits: nat)
    requires FitsIn(x, bits) && FitsIn(y, bits) && FitsIn(z, bits)
    requires FitsIn(x', bits) && FitsIn(y', bits) && FitsIn(z', bits)
    requires Interleave(x, y, z, bits) == Interleave(x', y', z', bits)
    ensures x == x' && y == y' && z == z'
    decreases bits
  {
    if bits > 0 {
      LastDigit(x, y, z, bits);
      LastDigit(x', y', z', bits);
      InterleaveIsInjective(x / 2, y / 2, z / 2, x' / 2, y' / 2, z' / 2, bits - 1);
    }
  }

  // ----- on words

  type Word = bv32

  function LastBit(w: Word): nat
  {
    if w & 1 == 0 then 0 else 1
  }

  /** The number in the low n bits of a word. */
  function Value(w: Word, n: nat): nat
  {
    if n == 0 then 0 else 2 * Value(w >> 1, n - 1) + LastBit(w)
  }

  /** Spreads the low ten bits so that two zero bits lie between any two of them. */
  function ExpandBits(value: Word): Word
  {
    var x0 := value & 0x0000_03FF;
    var x1 := (x0 | (x0 << 16)) & 0x0300_00FF;
    var x2 := (x1 | (x1 << 8)) & 0x0300_F00F;
    var x3 := (x2 | (x2 << 4)) & 0x030C_30C3;
    (x3 | (x3 << 2)) & 0x0924_9249
  }

  function KeyWord(x: Word, y: Word, z: Word): Word
  {
    (ExpandBits(x) << 2) | (ExpandBits(y) << 1) | ExpandBits(z)
  }

  /** Dropping three bits of the key word drops one bit of each coordinate. */
  lemma KeyWordStep(x: Word, y: Word, z: Word)
    requires x <= 0x3FF && y <= 0x3FF && z <= 0x3FF
    ensures KeyWord(x, y, z) >> 1 >> 1 >> 1 == KeyWord(x >> 1, y >> 1, z >> 1)
  {
  }

  lemma KeyWordBits(x: Word, y: Word, z: Word)
    ensures LastBit(KeyWord(x, y, z)) == LastBit(z)
    ensures LastBit(KeyWord(x, y, z) >> 1) == LastBit(y)
    ensures LastBit(KeyWord(x, y, z) >> 1 >> 1) == LastBit(x)
  {
    var w := KeyWord(x, y, z);
    assert w & 1 == z & 1;
    assert (w >> 1) & 1 == y & 1;
    assert (w >> 1 >> 1) & 1 == x & 1;
  }

  lemma ThreeBits(w: Word, n: nat)
    ensures Value(w, n + 3)
            == 8 * Value(w >> 1 >> 1 >> 1, n) + 4 * LastBit(w >> 1 >> 1) + 2 * LastBit(w >> 1) + LastBit(w)
  {
    assert Value(w, n + 3) == 2 * Value(w >> 1, n + 2) + LastBit(w);
    assert Value(w >> 1, n + 2) == 2 * Value(w >> 1 >> 1, n + 1) + LastBit(w >> 1);
  }

  lemma SmallerWord(w: Word)
    requires w <= 0x3FF
    ensures w >> 1 <= 0x3FF
  {
  }

  /** One octal digit of the key word. */
  lemma KeyWordDigit(x: Word, y: Word, z: Word, n: nat)
    requires x <= 0x3FF && y <= 0x3FF && z <= 0x3FF
    ensures Value(KeyWord(x, y, z), n + 3)
            == 8 * Value(KeyWord(x >> 1, y >> 1, z >> 1), n) + 4 * LastBit(x) + 2 * LastBit(y) + LastBit(z)
  {
    ThreeBits(KeyWord(x, y, z), n);
    KeyWordStep(x, y, z);
    KeyWordBits(x, y, z);
  }

  lemma HalvesOfValue(w: Word, n: nat)
    requires n > 0
    ensures Value(w, n) / 2 == Value(w >> 1, n - 1) && Value(w, n) % 2 == LastBit(w)
  {
  }

  /** The shift-and-mask sequence computes the interleaved key of ten-bit coordinates. */
  lemma {:induction false} KeyWordIsInterleave(x: Word, y: Word, z: Word, n: nat)
    requires x <= 0x3FF && y <= 0x3FF && z <= 0x3FF
    ensures Value(KeyWord(x, y, z), 3 * n) == Interleave(Value(x, n), Value(y, n), Value(z, n), n)
    decreases n
  {
    if n > 0 {
      SmallerWord(x);
      SmallerWord(y);
      SmallerWord(z);
      KeyWordDigit(x, y, z, 3 * (n - 1));
      HalvesOfValue(x, n);
      HalvesOfValue(y, n);
      HalvesOfValue(z, n);
      KeyWordIsInterleave(x >> 1, y >> 1, z >> 1, n - 1);
    }
  }

  // ----- words of numbers, and numbers of whole words

  const WORD_BITS := 32
  const AXIS_BITS := 10

  /** The word after n shifts to the right by one bit. */
  function Dropped(w: Word, n: nat): Word
  {
    if n == 0 then w else Dropped(w >> 1, n - 1)
  }

  /** The word with the low bits of a number. */
  function WordOf(q: nat, bits: nat): Word
  {
    if bits == 0 then 0 else (WordOf(q / 2, bits - 1) << 1) | Bit(q)
  }

  lemma {:induction false} NothingDropped(n: nat)
    ensures Dropped(0, n) == 0
  {
    if n > 0 {
      assert (0 as Word) >> 1 == 0;
      NothingDropped(n - 1);
    }
  }

  lemma {:induction false} DroppedTwice(w: Word, m: nat, n: nat)
    ensures Dropped(Dropped(w, m), n) == Dropped(w, m + n)
    decreases m
  {
    if m > 0 {
      DroppedTwice(w >> 1, m - 1, n);
    }
  }

  /** A word of at most ten bits. */
  lemma TenBits(w: Word, bits: nat)
    requires bits <= AXIS_BITS && Dropped(w, bits) == 0
    ensures w <= 0x3FF
  {
    DroppedTwice(w, bits, AXIS_BITS - bits);
    NothingDropped(AXIS_BITS - bits);
    Unrolled(w, AXIS_BITS);
  }

  lemma FiveDropped(w: Word, n: nat)
    requires n >= 5
    ensures Dropped(w, n) == Dropped(w >> 1 >> 1 >> 1 >> 1 >> 1, n - 5)
  {
    assert Dropped(w, n) == Dropped(w >> 1, n - 1) == Dropped(w >> 1 >> 1, n - 2);
    ThreeDropped(w >> 1 >> 1, n - 5);
  }

  lemma Unrolled(w: Word, bits: nat)
    requires bits == AXIS_BITS && Dropped(w, bits) == 0
    ensures w <= 0x3FF
  {
    var five := w >> 1 >> 1 >> 1 >> 1 >> 1;
    FiveDropped(w, bits);
    FiveDropped(five, bits - 5);
    ShiftedOut(w, five);
  }

  lemma ShiftedOut(w: Word, five: Word)
    requires five == w >> 1 >> 1 >> 1 >> 1 >> 1 && five >> 1 >> 1 >> 1 >> 1 >> 1 == 0
    ensures w <= 0x3FF
  {
  }

  /** One bit is shifted in at the low end of a short word. */
  lemma ShiftedIn(w: Word, bit: Word)
    requires w <= 0x3FF && bit <= 1
    ensures ((w << 1) | bit) >> 1 == w && LastBit((w << 1) | bit) == if bit == 0 then 0 else 1
  {
    assert ((w << 1) | bit) & 1 == bit;
  }

  function Bit(q: nat): (bit: Word)
    ensures bit <= 1 && (bit == 0 <==> q % 2 == 0)
  {
    if q % 2 == 1 then 1 else 0
  }

  lemma NextBit(rest: Word, bit: Word, w: Word, bits: nat)
    requires bits > 0 && rest <= 0x3FF && bit <= 1 && w == (rest << 1) | bit
    ensures Value(w, bits) == 2 * Value(rest, bits - 1) + if bit == 0 then 0 else 1
    ensures Dropped(w, bits) == Dropped(rest, bits - 1)
  {
    ShiftedIn(rest, bit);
  }

  /** The word of a number holds the number. */
  lemma {:induction false} ValueOfWord(q: nat, bits: nat)
    requires FitsIn(q, bits) && bits <= AXIS_BITS
    ensures Value(WordOf(q, bits), bits) == q && Dropped(WordOf(q, bits), bits) == 0
    decreases bits
  {
    if bits > 0 {
      var rest := WordOf(q / 2, bits - 1);
      ValueOfWord(q / 2, bits - 1);
      TenBits(rest, bits - 1);
      NextBit(rest, Bit(q), WordOf(q, bits), bits);
    }
  }

  lemma {:induction false} NoValue(n: nat)
    ensures Value(0, n) == 0
  {
    if n > 0 {
      assert (0 as Word) >> 1 == 0;
      NoValue(n - 1);
    }
  }

  /** Bits that are zero add nothing. */
  lemma {:induction false} HighBitsAreZero(w: Word, n: nat, more: nat)
    requires Dropped(w, n) == 0
    ensures Value(w, n + more) == Value(w, n)
    decreases n
  {
    if n == 0 {
      NoValue(more);
    } else {
      HighBitsAreZero(w >> 1, n - 1, more);
    }
  }

  lemma {:induction false} KeyWordDropped(x: Word, y: Word, z: Word, n: nat)
    requires x <= 0x3FF && y <= 0x3FF && z <= 0x3FF
    requires Dropped(x, n) == Dropped(y, n) == Dropped(z, n) == 0
    ensures Dropped(KeyWord(x, y, z), 3 * n) == 0
    decreases n
  {
    if n == 0 {
      assert KeyWord(0, 0, 0) == 0;
    } else {
      SmallerWord(x);
      SmallerWord(y);
      SmallerWord(z);
      KeyWordStep(x, y, z);
      KeyWordDropped(x >> 1, y >> 1, z >> 1, n - 1);
      ThreeDropped(KeyWord(x, y, z), 3 * (n - 1));
    }
  }

  lemma ThreeDropped(w: Word, n: nat)
    ensures Dropped(w, n + 3) == Dropped(w >> 1 >> 1 >> 1, n)
  {
    assert Dropped(w, n + 3) == Dropped(w >> 1, n + 2) == Dropped(w >> 1 >> 1, n + 1);
  }

  /** On quantised numbers the shift-and-mask sequence leaves the key in the whole word. */
  lemma KeyOfWords(x: nat, y: nat, z: nat, bits: nat)
    requires FitsIn(x, bits) && FitsIn(y, bits) && FitsIn(z, bits) && bits == AXIS_BITS
    ensures Value(KeyWord(WordOf(x, bits), WordOf(y, bits), WordOf(z, bits)), WORD_BITS) == Interleave(x, y, z, bits)
  {
    var a, b, c := WordOf(x, bits), WordOf(y, bits), WordOf(z, bits);
    ValueOfWord(x, bits);
    ValueOfWord(y, bits);
    ValueOfWord(z, bits);
    TenBits(a, bits);
    TenBits(b, bits);
    TenBits(c, bits);
    KeyWordDropped(a, b, c, bits);
    HighBitsAreZero(KeyWord(a, b, c), 3 * bits, WORD_BITS - 3 * bits);
    KeyWordIsInterleave(a, b, c, bits);
  }
}
