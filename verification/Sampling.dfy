/** Capturing a frame on the device: which particles are sampled, the bounds of the sample by a
    block-wise reduction in shared memory, and the 16-bit quantisation of its coordinates. */
module Sampling {
  import opened Ints
  import opened Vectors
  import opened BoundingBox
  import opened MortonKeys

  // ----- the sample

  /** The source index of a sample. */
  function SourceIndex(sample: nat, sources: nat, samples: nat): nat
    requires samples > 0
  {
    sample * sources / samples
  }

  lemma QuotientBounds(a: nat, n: nat, q: nat)
    requires n > 0 && q == a / n
    ensures q * n <= a < (q + 1) * n
  {
  }

  lemma ProductGrows(a: nat, b: nat, n: nat, an: nat, bn: nat)
    requires a <= b && an == a * n && bn == b * n
    ensures an <= bn
  {
  }

  /** Quotients are in the order of the numbers. */
  lemma QuotientsAreOrdered(a: nat, b: nat, n: nat, q: nat, r: nat)
    requires q * n <= a && b < (r + 1) * n && a <= b
    ensures q <= r
  {
    if r < q {
      ProductGrows(r + 1, q, n, (r + 1) * n, q * n);
    }
  }

  lemma QuotientIs(a: nat, n: nat, q: nat)
    requires n > 0 && q * n <= a < (q + 1) * n
    ensures a / n == q
  {
    var r := a / n;
    QuotientBounds(a, n, r);
    QuotientsAreOrdered(a, a, n, q, r);
    QuotientsAreOrdered(a, a, n, r, q);
  }

  /** Numbers that lie a whole divisor apart have different quotients. */
  lemma QuotientGrows(a: nat, b: nat, n: nat, q: nat, r: nat)
    requires n > 0 && a + n <= b && q == a / n && r == b / n
    ensures q < r
  {
    QuotientBounds(a, n, q);
    QuotientBounds(b, n, r);
    assert (q + 1) * n == q * n + n;
    QuotientsAreOrdered(q * n + n, b, n, q + 1, r);
  }

  lemma NextProduct(j: nat, n: nat, jn: nat)
    requires jn == j * n
    ensures (j + 1) * n == jn + n
  {
  }

  /** A sample no larger than the source picks existing particles, each at most once, in order. */
  lemma SampleIsIncreasing(i: nat, j: nat, sources: nat, samples: nat)
    requires i < j < samples <= sources
    ensures SourceIndex(i, sources, samples) < SourceIndex(j, sources, samples) < sources
  {
    var a, b := i * sources, j * sources;
    NextProduct(i, sources, a);
    ProductGrows(i + 1, j, sources, a + sources, b);
    QuotientGrows(a, b, samples, a / samples, b / samples);
    SampleInRange(j, sources, samples);
  }

  lemma SampleInRange(j: nat, sources: nat, samples: nat)
    requires j < samples <= sources
    ensures SourceIndex(j, sources, samples) < sources
  {
    var b, q := j * sources, j * sources / samples;
    QuotientBounds(b, samples, q);
    NextProduct(j, sources, b);
    ProductGrows(j + 1, samples, sources, b + sources, samples * sources);
    if sources <= q {
      ProductGrows(sources, q, samples, sources * samples, q * samples);
    }
  }

  /** The particles that a sample takes: sample i stands for the particle that many samples into
      the source, rounded down, and no particle is taken twice. */
  ghost predicate Spread(picks: seq<nat>, sources: nat, samples: nat)
  {
    && |picks| == samples
    && (forall i :: 0 <= i < samples ==>
          picks[i] < sources && picks[i] * samples <= i * sources < (picks[i] + 1) * samples)
    && (forall i, j :: 0 <= i < j < samples ==> picks[i] < picks[j])
  }

  function Picks(sources: nat, samples: nat): (picks: seq<nat>)
    ensures |picks| == samples
  {
    seq(samples, i requires 0 <= i < samples => SourceIndex(i, sources, samples))
  }

  lemma PicksAreSpread(sources: nat, samples: nat)
    requires 0 < samples <= sources
    ensures Spread(Picks(sources, samples), sources, samples)
  {
    var picks := Picks(sources, samples);
    forall i | 0 <= i < samples
      ensures picks[i] < sources && picks[i] * samples <= i * sources < (picks[i] + 1) * samples
    {
      SampleInRange(i, sources, samples);
      QuotientBounds(i * sources, samples, picks[i]);
    }
    forall i, j | 0 <= i < j < samples
      ensures picks[i] < picks[j]
    {
      SampleIsIncreasing(i, j, sources, samples);
    }
  }

  /** There is only one such choice. */
  lemma SpreadIsUnique(picks: seq<nat>, others: seq<nat>, sources: nat, samples: nat)
    requires samples > 0 && Spread(picks, sources, samples) && Spread(others, sources, samples)
    ensures picks == others
  {
    forall i | 0 <= i < samples
      ensures picks[i] == others[i]
    {
      QuotientIs(i * sources, samples, picks[i]);
      QuotientIs(i * sources, samples, others[i]);
    }
  }

  // ----- the 64-bit product

  const PRODUCT_LIMIT := 0x1_0000_0000_0000_0000

  /** The source index as it is computed, with a product that wraps around at 64 bits. */
  function WrappedIndex(sample: nat, sources: nat, samples: nat): nat
    requires samples > 0
  {
    sample * sources % PRODUCT_LIMIT / samples
  }

  /** No product wraps around exactly if the last one does not. */
  lemma ProductsFit(sources: nat, samples: nat)
    requires samples > 0
    ensures (forall j: nat {:trigger SourceIndex(j, sources, samples)} :: j < samples ==> j * sources < PRODUCT_LIMIT)
            <==> (samples - 1) * sources < PRODUCT_LIMIT
  {
    var last := samples - 1;
    if last * sources < PRODUCT_LIMIT {
      forall j: nat | j < samples
        ensures j * sources < PRODUCT_LIMIT
      {
        ProductGrows(j, last, sources, j * sources, last * sources);
      }
    } else {
      assert SourceIndex(last, sources, samples) == last * sources / samples;
    }
  }

  /** For as many particles as an int can count the wrap-around never acts. */
  lemma WrapIsIdle(j: nat, sources: nat, samples: nat)
    requires j < samples <= sources <= INT_MAX
    ensures WrappedIndex(j, sources, samples) == SourceIndex(j, sources, samples)
  {
    ProductGrows(j, INT_MAX, sources, j * sources, INT_MAX * sources);
  }

  /** Without subsampling every particle is its own sample. */
  lemma FullSample(i: nat, sources: nat)
    requires i < sources
    ensures SourceIndex(i, sources, sources) == i
  {
    QuotientIs(i * sources, sources, i);
  }

  // ----- quantisation

  const LARGEST := 65535

  /** The 16-bit code of a coordinate between the bounds. */
  function Quantize(p: real, low: real, high: real): (code: nat)
    ensures code <= LARGEST
  {
    if high == low then 0
    else
      var normalized := Min(1.0, Max(0.0, (p - low) / (high - low)));
      (normalized * 65535.0 + 0.5).Floor
  }

  /** The coordinate that a reader rebuilds from a code. */
  function Dequantize(code: nat, low: real, high: real): real
  {
    if high - low == 0.0 then low else low + (high - low) * code as real / 65535.0
  }

  lemma Divides(x: real, range: real) returns (t: real)
    requires range > 0.0
    ensures t == x / range && t * range == x
  {
    t := x / range;
  }

  lemma RatioIs(x: real, range: real, t: real)
    requires range > 0.0 && t * range == x
    ensures x / range == t
  {
    var q := Divides(x, range);
    ScalesUp(range, q, t);
    ScalesUp(range, t, q);
  }

  lemma OrderedFractions(k: real, s: real, t: real, x: real, y: real)
    requires k > 0.0 && s * k == x <= y == t * k
    ensures s <= t
  {
    ScalesUp(k, t, s);
  }

  /** A coordinate between the bounds is a fraction of the range. */
  lemma FractionOf(p: real, low: real, high: real) returns (t: real)
    requires low <= p <= high && low < high
    ensures t == (p - low) / (high - low) && t * (high - low) == p - low && 0.0 <= t <= 1.0
  {
    t := Divides(p - low, high - low);
    ScalesUp(high - low, t, 0.0);
    ScalesUp(high - low, 1.0, t);
  }

  /** Rounding misses the scaled fraction by at most a half. */
  lemma CodeOf(p: real, low: real, high: real, t: real)
    requires low < high && t == (p - low) / (high - low) && 0.0 <= t <= 1.0
    ensures -0.5 <= Quantize(p, low, high) as real - t * 65535.0 <= 0.5
  {
  }

  lemma ErrorTimesRange(range: real, code: real, t: real, e: real, x: real, y: real, z: real)
    requires e == code - t * 65535.0 && x == range * code && y == t * range && z == e * range
    ensures z == x - 65535.0 * y
  {
    assert (code - t * 65535.0) * range == range * code - 65535.0 * (t * range);
  }

  lemma ErrorBounds(range: real, e: real, z: real)
    requires range >= 0.0 && -0.5 <= e <= 0.5 && z == e * range
    ensures -0.5 * range <= z <= 0.5 * range
  {
    Scales(range, -0.5, e, -0.5 * range, z);
    Scales(range, e, 0.5, z, 0.5 * range);
  }

  lemma ErrorShare(x: real, y: real, z: real, range: real)
    requires z == x - 65535.0 * y && -0.5 * range <= z <= 0.5 * range
    ensures Abs(x / 65535.0 - y) <= range / (2.0 * 65535.0)
  {
  }

  lemma ScaledError(range: real, code: real, t: real, x: real, y: real)
    requires range > 0.0 && -0.5 <= code - t * 65535.0 <= 0.5 && x == range * code && y == t * range
    ensures Abs(x / 65535.0 - y) <= range / (2.0 * 65535.0)
  {
    var e := code - t * 65535.0;
    var z := e * range;
    ErrorTimesRange(range, code, t, e, x, y, z);
    ErrorBounds(range, e, z);
    ErrorShare(x, y, z, range);
  }

  lemma Decodes(code: nat, low: real, range: real, high: real, x: real)
    requires range == high - low && range > 0.0 && x == range * code as real
    ensures Dequantize(code, low, high) == low + x / 65535.0
  {
  }

  /** Decoding misses a coordinate by at most half a step. */
  lemma QuantizationError(p: real, low: real, high: real)
    requires low <= p <= high
    ensures Abs(Dequantize(Quantize(p, low, high), low, high) - p) <= (high - low) / (2.0 * 65535.0)
  {
    if low < high {
      var t := FractionOf(p, low, high);
      var range, code := high - low, Quantize(p, low, high);
      var x, y := range * code as real, t * range;
      CodeOf(p, low, high, t);
      ScaledError(range, code as real, t, x, y);
      Decodes(code, low, range, high, x);
    }
  }

  /** Encoding a decoded value again gives the same code. */
  lemma RequantizationIsStable(code: nat, low: real, high: real)
    requires low < high && code <= LARGEST
    ensures Quantize(Dequantize(code, low, high), low, high) == code
  {
    var range, t := high - low, code as real / 65535.0;
    assert t * range == range * code as real / 65535.0;
    RatioIs(Dequantize(code, low, high) - low, range, t);
    assert t * 65535.0 == code as real;
  }

  /** The bounds themselves are met exactly. */
  lemma BoundsAreExact(low: real, high: real)
    requires low <= high
    ensures Dequantize(Quantize(low, low, high), low, high) == low
    ensures Dequantize(Quantize(high, low, high), low, high) == high
  {
    if low < high {
      RatioIs(0.0, high - low, 0.0);
      assert Quantize(low, low, high) == 0;
      assert (high - low) * 0.0 == 0.0;
      RatioIs(high - low, high - low, 1.0);
      assert Quantize(high, low, high) == LARGEST;
    }
  }

  lemma RoundedFraction(p: real, low: real, high: real, t: real)
    requires low < high && t == (p - low) / (high - low) && 0.0 <= t <= 1.0
    ensures Quantize(p, low, high) == (t * 65535.0 + 0.5).Floor
  {
  }

  lemma FloorIsMonotone(a: real, b: real)
    requires a <= b
    ensures a.Floor <= b.Floor
  {
  }

  /** Codes keep the order of coordinates. */
  lemma QuantizeIsMonotone(p: real, q: real, low: real, high: real)
    requires low <= p <= q <= high
    ensures Quantize(p, low, high) <= Quantize(q, low, high)
  {
    if low < high {
      var s := FractionOf(p, low, high);
      var t := FractionOf(q, low, high);
      OrderedFractions(high - low, s, t, p - low, q - low);
      RoundedFraction(p, low, high, s);
      RoundedFraction(q, low, high, t);
      FloorIsMonotone(s * 65535.0 + 0.5, t * 65535.0 + 0.5);
    }
  }
}
