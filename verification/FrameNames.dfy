/** File names of queued frames: the sequence number padded to twenty digits, so that the order
    of names is the order of sequence numbers, and no two frames share a name. */
module FrameNames {

  const SEQUENCE_DIGITS := 20
  const SEQUENCE_LIMIT := 0x1_0000_0000_0000_0000

  function Digit(n: nat): char
    requires n < 10
  {
    '0' + n as char
  }

  /** The decimal number without padding. */
  function Decimal(n: nat): (s: string)
    ensures |s| > 0
  {
    if n < 10 then [Digit(n)] else Decimal(n / 10) + [Digit(n % 10)]
  }

  /** Filled up with zeros on the left; longer numbers are left as they are. */
  function Padded(s: string, width: nat): string
    decreases width - |s|
  {
    if |s| >= width then s else Padded("0" + s, width)
  }

  function MakeFrameName(session: string, sequence: nat): string
  {
    "run-" + session + "-frame-" + Padded(Decimal(sequence), SEQUENCE_DIGITS) + ".nbsnap"
  }

  /** The last digits of a number, exactly so many. */
  function Digits(n: nat, width: nat): (s: string)
    ensures |s| == width
    decreases width
  {
    if width == 0 then "" else Digits(n / 10, width - 1) + [Digit(n % 10)]
  }

  function Pow10(n: nat): nat
  {
    if n == 0 then 1 else 10 * Pow10(n - 1)
  }

  /** A number below the limit of its width has a zero in front of one digit more. */
  lemma {:induction false} LeadingZero(n: nat, width: nat)
    requires n < Pow10(width)
    ensures Digits(n, width + 1) == "0" + Digits(n, width)
    decreases width
  {
    if width > 0 {
      LeadingZero(n / 10, width - 1);
    }
  }

  /** The unpadded number has as many digits as it needs. */
  lemma {:induction false} DecimalIsDigits(n: nat)
    ensures n < Pow10(|Decimal(n)|) && Decimal(n) == Digits(n, |Decimal(n)|)
  {
    if n < 10 {
      assert Digits(n, 1) == Digits(n / 10, 0) + [Digit(n % 10)];
      assert Pow10(1) == 10;
    } else {
      DecimalIsDigits(n / 10);
    }
  }

  lemma {:induction false} DecimalIsShort(n: nat, width: nat)
    requires n < Pow10(width) && width > 0
    ensures |Decimal(n)| <= width
    decreases width
  {
    if n >= 10 {
      assert Pow10(1) == 10;
      DecimalIsShort(n / 10, width - 1);
    }
  }

  lemma {:induction false} PaddingIsDigits(n: nat, s: string, width: nat)
    requires s == Digits(n, |s|) && n < Pow10(|s|) && |s| <= width
    ensures Padded(s, width) == Digits(n, width)
    decreases width - |s|
  {
    if |s| < width {
      LeadingZero(n, |s|);
      PaddingIsDigits(n, "0" + s, width);
    }
  }

  lemma {:induction false} PowersAdd(m: nat, n: nat)
    ensures Pow10(m + n) == Pow10(m) * Pow10(n)
  {
    if m > 0 {
      PowersAdd(m - 1, n);
    }
  }

  /** Every 64-bit number has at most twenty digits. */
  lemma TwentyDigits()
    ensures SEQUENCE_LIMIT <= Pow10(SEQUENCE_DIGITS)
  {
    assert Pow10(5) == 100_000;
    PowersAdd(5, 5);
    PowersAdd(10, 10);
  }

  lemma SequenceFits(n: nat, width: nat)
    requires n < SEQUENCE_LIMIT && width == SEQUENCE_DIGITS
    ensures n < Pow10(width)
  {
    TwentyDigits();
  }

  lemma PaddedSequence(n: nat, width: nat)
    requires n < SEQUENCE_LIMIT && width == SEQUENCE_DIGITS
    ensures Padded(Decimal(n), width) == Digits(n, width)
  {
    SequenceFits(n, width);
    DecimalIsDigits(n);
    DecimalIsShort(n, width);
    PaddingIsDigits(n, Decimal(n), width);
  }

  lemma Regroup(front: string, middle: string, back: string)
    ensures front + middle + back == front + (middle + back)
  {
  }

  /** The three parts of a name; the last two have fixed lengths. */
  lemma PartsOfName(session: string, n: nat, width: nat)
    requires n < SEQUENCE_LIMIT && width == SEQUENCE_DIGITS
    ensures MakeFrameName(session, n) == ("run-" + session + "-frame-") + (Digits(n, width) + ".nbsnap")
  {
    PaddedSequence(n, width);
    Regroup("run-" + session + "-frame-", Digits(n, width), ".nbsnap");
  }

  /** The number that a string of digits spells. */
  function Spelled(digits: string): nat
    requires forall i :: 0 <= i < |digits| ==> '0' <= digits[i] <= '9'
  {
    if digits == "" then 0
    else 10 * Spelled(digits[..|digits| - 1]) + (digits[|digits| - 1] as nat - '0' as nat)
  }

  lemma {:induction false} DigitsSpell(n: nat, width: nat)
    requires n < Pow10(width)
    ensures forall i :: 0 <= i < width ==> '0' <= Digits(n, width)[i] <= '9'
    ensures Spelled(Digits(n, width)) == n
    decreases width
  {
    if width > 0 {
      DigitsSpell(n / 10, width - 1);
      assert Digits(n, width)[..width - 1] == Digits(n / 10, width - 1);
    }
  }

  lemma SequenceSpelled(n: nat, width: nat)
    requires n < SEQUENCE_LIMIT && width == SEQUENCE_DIGITS
    ensures forall i :: 0 <= i < width ==> '0' <= Digits(n, width)[i] <= '9'
    ensures Spelled(Digits(n, width)) == n
  {
    SequenceFits(n, width);
    DigitsSpell(n, width);
  }

  /** What a name looks like: the session, and twenty digits that spell the number. */
  lemma NameSpellsSequence(session: string, n: nat) returns (digits: string)
    requires n < 0x1_0000_0000_0000_0000
    ensures MakeFrameName(session, n) == ("run-" + session + "-frame-") + (digits + ".nbsnap")
    ensures |digits| == 20 && (forall i :: 0 <= i < |digits| ==> '0' <= digits[i] <= '9') && Spelled(digits) == n
  {
    var width: nat :| width == SEQUENCE_DIGITS;
    PartsOfName(session, n, width);
    SequenceSpelled(n, width);
    digits := Digits(n, width);
  }

  // ----- order of strings

  predicate Less(a: string, b: string)
  {
    b != "" && (a == "" || a[0] < b[0] || (a[0] == b[0] && Less(a[1..], b[1..])))
  }

  lemma {:induction false} CommonFront(p: string, a: string, b: string)
    ensures Less(p + a, p + b) <==> Less(a, b)
  {
    if p == "" {
      assert p + a == a && p + b == b;
    } else {
      assert (p + a)[1..] == p[1..] + a && (p + b)[1..] == p[1..] + b;
      CommonFront(p[1..], a, b);
    }
  }

  lemma {:induction false} NotLessThanItself(a: string)
    ensures !Less(a, a)
  {
    if a != "" {
      NotLessThanItself(a[1..]);
    }
  }

  /** Behind strings of equal length the tails decide only if these agree. */
  lemma {:induction false} EqualLengths(a: string, b: string, c: string, d: string)
    requires |a| == |b|
    ensures Less(a + c, b + d) <==> Less(a, b) || (a == b && Less(c, d))
  {
    if a == "" {
      assert a + c == c && b + d == d;
    } else {
      assert (a + c)[1..] == a[1..] + c && (b + d)[1..] == b[1..] + d;
      EqualLengths(a[1..], b[1..], c, d);
      assert a == b <==> a[0] == b[0] && a[1..] == b[1..];
    }
  }

  lemma {:induction false} DigitsAreOrdered(a: nat, b: nat, width: nat)
    requires a < Pow10(width) && b < Pow10(width)
    ensures Less(Digits(a, width), Digits(b, width)) <==> a < b
    ensures Digits(a, width) == Digits(b, width) <==> a == b
    decreases width
  {
    if width > 0 {
      DigitsAreOrdered(a / 10, b / 10, width - 1);
      var x, y := [Digit(a % 10)], [Digit(b % 10)];
      EqualLengths(Digits(a / 10, width - 1), Digits(b / 10, width - 1), x, y);
      assert Less(x, y) <==> a % 10 < b % 10;
      assert Digits(a, width)[width - 1] == Digit(a % 10) && Digits(b, width)[width - 1] == Digit(b % 10);
      assert Digits(a, width)[..width - 1] == Digits(a / 10, width - 1);
      assert Digits(b, width)[..width - 1] == Digits(b / 10, width - 1);
    }
  }

  lemma SortByMiddle(front: string, x: string, y: string, back: string)
    requires |x| == |y|
    ensures Less(front + (x + back), front + (y + back)) <==> Less(x, y)
  {
    CommonFront(front, x + back, y + back);
    EqualLengths(x, y, back, back);
    NotLessThanItself(back);
  }

  /** Within one session frames sort by sequence number. */
  lemma NamesSortBySequence(session: string, a: nat, b: nat)
    requires a < SEQUENCE_LIMIT && b < SEQUENCE_LIMIT
    ensures Less(MakeFrameName(session, a), MakeFrameName(session, b)) <==> a < b
  {
    var width: nat :| width == SEQUENCE_DIGITS;
    PartsOfName(session, a, width);
    PartsOfName(session, b, width);
    SequenceFits(a, width);
    SequenceFits(b, width);
    DigitsAreOrdered(a, b, width);
    SortByMiddle("run-" + session + "-frame-", Digits(a, width), Digits(b, width), ".nbsnap");
  }

  lemma FixedEnds(s: string, x: string, t: string, y: string)
    requires |x| == |y|
    requires ("run-" + s + "-frame-") + (x + ".nbsnap") == ("run-" + t + "-frame-") + (y + ".nbsnap")
    ensures s == t && x == y
  {
    var m := ("run-" + s + "-frame-") + (x + ".nbsnap");
    var n := ("run-" + t + "-frame-") + (y + ".nbsnap");
    assert |s| == |t|;
    assert m[4..4 + |s|] == s && n[4..4 + |t|] == t;
    assert m[11 + |s|..11 + |s| + |x|] == x && n[11 + |t|..11 + |t| + |y|] == y;
  }

  /** A name determines its session and its sequence number. */
  lemma NamesAreUnique(s: string, a: nat, t: string, b: nat)
    requires a < SEQUENCE_LIMIT && b < SEQUENCE_LIMIT
    requires MakeFrameName(s, a) == MakeFrameName(t, b)
    ensures s == t && a == b
  {
    var width: nat :| width == SEQUENCE_DIGITS;
    PartsOfName(s, a, width);
    PartsOfName(t, b, width);
    SequenceFits(a, width);
    SequenceFits(b, width);
    FixedEnds(s, Digits(a, width), t, Digits(b, width));
    DigitsAreOrdered(a, b, width);
  }
}
