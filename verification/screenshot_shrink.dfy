/**
 Fitting a screenshot into its limits: the first target size respects the maximum dimensions, and a
 loop encodes and shrinks until the bytes fit. All scaling is exact.
 */
module ScreenshotShrink {
  import opened Prelude

  type byte = bv8

  const ABSOLUTE_MAX_DIMENSION: nat := 4096
  const DEFAULT_MAX_DIMENSION: nat := 1920
  const MIN_MAX_BYTES: nat := 1024
  const DEFAULT_MAX_BYTES: nat := 2 * 1024 * 1024
  const ABSOLUTE_MAX_BYTES: nat := 4 * 1024 * 1024

  function Clamp(v: nat, low: nat, high: nat): (r: nat)
    requires low <= high
    ensures low <= r <= high && (low <= v <= high ==> r == v)
  {
    if v < low then low else if v > high then high else v
  }

  // ----- options -----

  datatype Requested = Requested(maxWidth: Option<nat>, maxHeight: Option<nat>, maxBytes: Option<nat>, scale: Option<real>)

  datatype Limits = Limits(maxWidth: nat, maxHeight: nat, maxBytes: nat, scale: real)
  {
    predicate Valid() {
      && 1 <= maxWidth <= ABSOLUTE_MAX_DIMENSION && 1 <= maxHeight <= ABSOLUTE_MAX_DIMENSION
      && MIN_MAX_BYTES <= maxBytes <= ABSOLUTE_MAX_BYTES && 0.0 < scale <= 1.0
    }
  }

  function Or(v: Option<nat>, default: nat): nat {
    if v.Some? then v.value else default
  }

  /** A request within its bounds is honoured, one outside goes to the nearer bound, and none means the default. */
  predicate IsTaken(limit: nat, requested: Option<nat>, default: nat, low: nat, high: nat) {
    match requested
    case None => limit == default
    case Some(v) => (low <= v <= high ==> limit == v) && (v < low ==> limit == low) && (v > high ==> limit == high)
  }

  function Resolve(r: Requested): (limits: Limits)
    ensures limits.Valid()
    ensures IsTaken(limits.maxWidth, r.maxWidth, DEFAULT_MAX_DIMENSION, 1, ABSOLUTE_MAX_DIMENSION)
    ensures IsTaken(limits.maxHeight, r.maxHeight, DEFAULT_MAX_DIMENSION, 1, ABSOLUTE_MAX_DIMENSION)
    ensures IsTaken(limits.maxBytes, r.maxBytes, DEFAULT_MAX_BYTES, MIN_MAX_BYTES, ABSOLUTE_MAX_BYTES)
    ensures r.scale.Some? && 0.0 < r.scale.value <= 1.0 ==> limits.scale == r.scale.value
    ensures r.scale.None? || r.scale.value <= 0.0 || r.scale.value > 1.0 ==> limits.scale == 1.0
  {
    var scale := if r.scale.Some? && r.scale.value > 0.0 then r.scale.value else 1.0;
    Limits(Clamp(Or(r.maxWidth, DEFAULT_MAX_DIMENSION), 1, ABSOLUTE_MAX_DIMENSION),
           Clamp(Or(r.maxHeight, DEFAULT_MAX_DIMENSION), 1, ABSOLUTE_MAX_DIMENSION),
           Clamp(Or(r.maxBytes, DEFAULT_MAX_BYTES), MIN_MAX_BYTES, ABSOLUTE_MAX_BYTES),
           if scale > 1.0 then 1.0 else scale)
  }

  // ----- the first target -----

  function MinReal(a: real, b: real): real {
    if a < b then a else b
  }

  /** The common factor for both sides. */
  function FitScale(width: nat, height: nat, limits: Limits): real
    requires width > 0 && height > 0
  {
    MinReal(MinReal(MinReal(limits.scale, limits.maxWidth as real / width as real),
                    limits.maxHeight as real / height as real),
            1.0)
  }

  /** A factor that keeps both sides within their limits and enlarges nothing. */
  predicate IsFitting(t: real, width: nat, height: nat, limits: Limits) {
    && 0.0 < t <= 1.0 && t <= limits.scale
    && Scaled(width, t) <= limits.maxWidth as real && Scaled(height, t) <= limits.maxHeight as real
  }

  /** The common factor is the greatest that fits. */
  lemma FitScaleIsGreatest(width: nat, height: nat, limits: Limits, t: real)
    requires width > 0 && height > 0 && limits.Valid()
    ensures IsFitting(FitScale(width, height, limits), width, height, limits)
    ensures IsFitting(t, width, height, limits) ==> t <= FitScale(width, height, limits)
  {
    var scale := FitScale(width, height, limits);
    QuotientIsPositive(limits.maxWidth, width);
    QuotientIsPositive(limits.maxHeight, height);
    QuotientTimes(limits.maxWidth as real, width as real, scale);
    QuotientTimes(limits.maxHeight as real, height as real, scale);
    if IsFitting(t, width, height, limits) {
      FittingIsSmaller(width, height, limits, t);
    }
  }

  lemma FittingIsSmaller(width: nat, height: nat, limits: Limits, t: real)
    requires width > 0 && height > 0 && limits.Valid() && IsFitting(t, width, height, limits)
    ensures t <= FitScale(width, height, limits)
  {
    TimesQuotient(limits.maxWidth as real, width as real, t);
    TimesQuotient(limits.maxHeight as real, height as real, t);
  }

  lemma QuotientIsPositive(a: nat, b: nat)
    requires a > 0 && b > 0
    ensures a as real / b as real > 0.0
  {
  }

  lemma TimesQuotient(a: real, b: real, factor: real)
    requires b > 0.0 && b * factor <= a
    ensures factor <= a / b
  {
    assert b * (a / b) == a;
    assert (factor - a / b) * b <= 0.0;
    NotPositive(factor - a / b, b);
  }

  /** Rounded to the nearest whole number, halves upwards. */
  function Round(v: real): int {
    (v + 0.5).Floor
  }

  function Scaled(side: nat, scale: real): real {
    side as real * scale
  }

  function TargetSide(side: nat, scale: real): (r: nat)
    requires side > 0 && scale >= 0.0
    ensures 1 <= r <= side
  {
    assert Scaled(side, scale) >= 0.0;
    Clamp(Round(Scaled(side, scale)), 1, side)
  }

  function TargetDimensions(width: nat, height: nat, limits: Limits): (nat, nat)
    requires width > 0 && height > 0 && limits.Valid()
  {
    var scale := FitScale(width, height, limits);
    assert limits.maxWidth as real / width as real >= 0.0 && limits.maxHeight as real / height as real >= 0.0;
    (TargetSide(width, scale), TargetSide(height, scale))
  }

  lemma QuotientTimes(a: real, b: real, factor: real)
    requires b > 0.0 && factor <= a / b
    ensures b * factor <= a
  {
    assert b * (a / b) == a;
    assert b * (a / b - factor) >= 0.0;
  }

  /** The nearest whole number to a scaled side, or 1 when that would be nothing. */
  predicate IsNearest(r: nat, exact: real) {
    -0.5 <= exact - r as real < 0.5 || (r == 1 && exact < 0.5)
  }

  /** Each target side is the nearest whole number to the side scaled by the common factor. */
  lemma TargetIsNearest(width: nat, height: nat, limits: Limits)
    requires width > 0 && height > 0 && limits.Valid()
    ensures var (target, scale) := (TargetDimensions(width, height, limits), FitScale(width, height, limits));
            IsNearest(target.0, Scaled(width, scale)) && IsNearest(target.1, Scaled(height, scale))
  {
    FitScaleIsFactor(width, height, limits);
    SideIsNearest(width, FitScale(width, height, limits));
    SideIsNearest(height, FitScale(width, height, limits));
  }

  lemma FitScaleIsFactor(width: nat, height: nat, limits: Limits)
    requires width > 0 && height > 0 && limits.Valid()
    ensures 0.0 < FitScale(width, height, limits) <= 1.0
  {
    QuotientIsPositive(limits.maxWidth, width);
    QuotientIsPositive(limits.maxHeight, height);
  }

  lemma SideIsNearest(side: nat, scale: real)
    requires side > 0 && 0.0 < scale <= 1.0
    ensures IsNearest(TargetSide(side, scale), Scaled(side, scale))
  {
    ScaledIsSmaller(side as real, scale);
  }

  lemma ScaledIsSmaller(side: real, scale: real)
    requires side > 0.0 && 0.0 < scale <= 1.0
    ensures 0.0 < side * scale <= side
  {
    assert side * (1.0 - scale) >= 0.0;
  }

  /** A side scaled to at most `limit` rounds to at most `limit`. */
  lemma RoundedFits(side: nat, scale: real, limit: nat)
    requires side > 0 && limit > 0 && 0.0 <= scale <= limit as real / side as real
    ensures TargetSide(side, scale) <= limit
  {
    QuotientTimes(limit as real, side as real, scale);
  }

  lemma TargetFits(width: nat, height: nat, limits: Limits)
    requires width > 0 && height > 0 && limits.Valid()
    ensures var (w, h) := TargetDimensions(width, height, limits);
            1 <= w <= width && 1 <= h <= height && w <= limits.maxWidth && h <= limits.maxHeight
  {
    var scale := FitScale(width, height, limits);
    assert limits.maxWidth as real / width as real >= 0.0 && limits.maxHeight as real / height as real >= 0.0;
    RoundedFits(width, scale, limits.maxWidth);
    RoundedFits(height, scale, limits.maxHeight);
  }

  lemma QuotientAtLeastOne(a: nat, b: nat)
    requires 0 < b <= a
    ensures a as real / b as real >= 1.0
  {
    var q := a as real / b as real;
    assert q * b as real == a as real;
    assert (1.0 - q) * b as real == b as real - a as real;
    NotPositive(1.0 - q, b as real);
  }

  lemma NotPositive(x: real, y: real)
    requires x * y <= 0.0 && y > 0.0
    ensures x <= 0.0
  {
  }

  /** A screenshot within its limits and requested unscaled keeps its size. */
  lemma FittingTargetIsUnchanged(width: nat, height: nat, limits: Limits)
    requires 0 < width <= limits.maxWidth && 0 < height <= limits.maxHeight && limits.Valid() && limits.scale == 1.0
    ensures TargetDimensions(width, height, limits) == (width, height)
  {
    QuotientAtLeastOne(limits.maxWidth, width);
    QuotientAtLeastOne(limits.maxHeight, height);
    assert FitScale(width, height, limits) == 1.0;
    assert Round(width as real) == width && Round(height as real) == height;
  }

  // ----- shrinking -----

  /** The largest number whose square is at most `n`. */
  function Root(n: nat): (r: nat)
    ensures r * r <= n < (r + 1) * (r + 1)
  {
    if n == 0 then 0
    else
      var r := Root(n - 1);
      if (r + 1) * (r + 1) <= n then r + 1 else r
  }

  function Max(a: nat, b: nat): nat { if a < b then b else a }

  function Product(a: nat, b: nat): nat {
    a * b
  }

  function Quotient(a: nat, b: nat): (q: nat)
    requires b > 0
    ensures q * b <= a < q * b + b
  {
    a / b
  }

  /** The whole part of 9/10 * side * sqrt(maxBytes / encoded). */
  function ScaledSide(side: nat, encoded: nat, maxBytes: nat): nat
    requires encoded > 0
  {
    Root(Quotient(81 * Product(Product(side, side), maxBytes), 100 * encoded))
  }

  function NextSide(side: nat, encoded: nat, maxBytes: nat): nat
    requires side > 0 && encoded > 0
  {
    var next := Max(Clamp(ScaledSide(side, encoded, maxBytes), side / 10, 19 * side / 20), 1);
    if next >= side && side > 1 then side - 1 else next
  }

  function NextDimensions(width: nat, height: nat, encoded: nat, maxBytes: nat): (nat, nat)
    requires width > 0 && height > 0 && encoded > 0
  {
    (NextSide(width, encoded, maxBytes), NextSide(height, encoded, maxBytes))
  }

  /** The scaled side is the whole part of the exact real product: a number is at most the one
      exactly when it is at most the other. */
  lemma ScaledSideIsFloor(side: nat, encoded: nat, maxBytes: nat, k: nat)
    requires encoded > 0
    ensures k <= ScaledSide(side, encoded, maxBytes) <==>
            Product(Product(k, k), 100 * encoded) <= 81 * Product(Product(side, side), maxBytes)
  {
    var product := 81 * Product(Product(side, side), maxBytes);
    var q := Quotient(product, 100 * encoded);
    var r := Root(q);
    DividesInto(Product(k, k), product, 100 * encoded);
    if k <= r {
      SquaresGrow(k, r);
    } else {
      SquaresGrow(r + 1, k);
    }
  }

  lemma SquaresGrow(a: nat, b: nat)
    requires a <= b
    ensures a * a <= b * b
  {
    assert a * a <= a * b <= b * b;
  }

  lemma DividesInto(a: nat, b: nat, c: nat)
    requires c > 0
    ensures a <= Quotient(b, c) <==> Product(a, c) <= b
  {
    var q := Quotient(b, c);
    if a <= q {
      Scale(c, a, q);
    } else {
      Scale(c, q + 1, a);
    }
  }

  /** The limit of one pass for one side. */
  function Shrunk(side: nat): nat {
    Max(19 * side / 20, 1)
  }

  /** Every pass shrinks a side to at most 19/20, or to 1, and the forced decrement is never taken. */
  lemma PassShrinks(side: nat, encoded: nat, maxBytes: nat)
    requires side > 0 && encoded > 0
    ensures var next := NextSide(side, encoded, maxBytes);
            1 <= next <= Shrunk(side) && (side > 1 ==> next < side)
    ensures side > 1 ==>
              NextSide(side, encoded, maxBytes) ==
              Max(Clamp(ScaledSide(side, encoded, maxBytes), side / 10, 19 * side / 20), 1)
  {
  }

  /** How many passes it takes at most until a side is 1. */
  function Passes(side: nat): nat {
    if side <= 1 then 0 else 1 + Passes(Shrunk(side))
  }

  lemma {:induction false} PassesGrow(a: nat, b: nat)
    requires a <= b
    ensures Passes(a) <= Passes(b)
    decreases b
  {
    if a > 1 {
      PassesGrow(Shrunk(a), Shrunk(b));
    }
  }

  datatype Encoded = Encoded(bytes: seq<byte>, width: nat, height: nat)

  datatype ShrinkError = EncodingFailed | TooLargeAtOnePixel

  /** The screenshot resized to the given size and encoded, or an error of the encoder. */
  type Encoder = (nat, nat) -> Option<seq<byte>>

  /** Each size but the last encodes to too many bytes, and the next one is computed from what it encodes to. */
  predicate AreTried(encode: Encoder, maxBytes: nat, sizes: seq<(nat, nat)>) {
    forall i | 0 <= i < |sizes| - 1 :: IsFollowed(encode, maxBytes, sizes, i)
  }

  predicate IsFollowed(encode: Encoder, maxBytes: nat, sizes: seq<(nat, nat)>, i: nat) {
    && i + 1 < |sizes|
    && var (w, h) := sizes[i];
       && w > 0 && h > 0 && encode(w, h).Some? && |encode(w, h).value| > maxBytes
       && sizes[i + 1] == NextDimensions(w, h, |encode(w, h).value|, maxBytes)
  }

  lemma OneMoreTry(encode: Encoder, maxBytes: nat, sizes: seq<(nat, nat)>, next: (nat, nat))
    requires AreTried(encode, maxBytes, sizes) && sizes != []
    requires IsFollowed(encode, maxBytes, sizes + [next], |sizes| - 1)
    ensures AreTried(encode, maxBytes, sizes + [next])
  {
    forall i | 0 <= i < |sizes| ensures IsFollowed(encode, maxBytes, sizes + [next], i) {
      assert i < |sizes| - 1 ==> IsFollowed(encode, maxBytes, sizes, i);
    }
  }

  /** For every encoder the loop ends after a bounded number of encodings, and what it returns is the
      encoding at the size it names, within the byte limit and no larger than the first target. */
  method EncodeScreenshotToFitBytes(encode: Encoder, targetWidth: nat, targetHeight: nat, maxBytes: nat)
    returns (r: Result<Encoded, ShrinkError>, encodings: nat, ghost tried: seq<(nat, nat)>)
    requires targetWidth > 0 && targetHeight > 0
    ensures encodings <= Passes(Max(targetWidth, targetHeight)) + 1
    ensures encodings == |tried| > 0 && tried[0] == (targetWidth, targetHeight) && AreTried(encode, maxBytes, tried)
    ensures r.Ok? ==> tried[|tried| - 1] == (r.value.width, r.value.height)
    ensures r == Err(TooLargeAtOnePixel) ==> tried[|tried| - 1] == (1, 1)
    ensures r == Err(EncodingFailed) <==> encode(tried[|tried| - 1].0, tried[|tried| - 1].1).None?
    ensures r.Ok? ==>
              && |r.value.bytes| <= maxBytes && encode(r.value.width, r.value.height) == Some(r.value.bytes)
              && 1 <= r.value.width <= targetWidth && 1 <= r.value.height <= targetHeight
    ensures r == Err(TooLargeAtOnePixel) ==> encode(1, 1).Some? && |encode(1, 1).value| > maxBytes
    ensures (forall w, h :: encode(w, h).Some?) && |encode(1, 1).value| <= maxBytes ==> r.Ok?
  {
    var width: nat, height: nat := targetWidth, targetHeight;
    encodings, tried := 0, [];
    while true
      invariant encodings == |tried| && AreTried(encode, maxBytes, tried + [(width, height)])
      invariant (tried + [(width, height)])[0] == (targetWidth, targetHeight)
      invariant 1 <= width <= targetWidth && 1 <= height <= targetHeight
      invariant encodings + Passes(Max(width, height)) <= Passes(Max(targetWidth, targetHeight))
      decreases width + height
    {
      var bytes := encode(width, height);
      encodings := encodings + 1;
      tried := tried + [(width, height)];
      if bytes.None? {
        return Err(EncodingFailed), encodings, tried;
      }
      if |bytes.value| <= maxBytes {
        return Ok(Encoded(bytes.value, width, height)), encodings, tried;
      }
      if width == 1 && height == 1 {
        return Err(TooLargeAtOnePixel), encodings, tried;
      }
      PassShrinks(width, |bytes.value|, maxBytes);
      PassShrinks(height, |bytes.value|, maxBytes);
      ghost var side := Max(width, height);
      var (nextWidth, nextHeight) := NextDimensions(width, height, |bytes.value|, maxBytes);
      PassesGrow(Max(nextWidth, nextHeight), Shrunk(side));
      OneMoreTry(encode, maxBytes, tried, (nextWidth, nextHeight));
      width, height := nextWidth, nextHeight;
    }
  }

  // ----- how many passes -----

  function Bits(n: nat): nat {
    if n <= 1 then 0 else 1 + Bits(n / 2)
  }

  /** `n` passes in a row. */
  function ShrunkTimes(side: nat, n: nat): nat {
    if n == 0 then side else Shrunk(ShrunkTimes(side, n - 1))
  }

  lemma {:induction false} PassesAfter(side: nat, n: nat)
    ensures Passes(side) <= n + Passes(ShrunkTimes(side, n))
  {
    if n > 0 {
      PassesAfter(side, n - 1);
    }
  }

  function Power(base: nat, n: nat): nat {
    if n == 0 then 1 else base * Power(base, n - 1)
  }

  lemma {:induction false} ShrunkBound(side: nat, n: nat)
    ensures ShrunkTimes(side, n) <= 1 || Power(20, n) * ShrunkTimes(side, n) <= Power(19, n) * side
  {
    if n > 0 {
      var before := ShrunkTimes(side, n - 1);
      ShrunkBound(side, n - 1);
      if ShrunkTimes(side, n) > 1 {
        BoundStep(Power(19, n - 1), Power(20, n - 1), before, ShrunkTimes(side, n), side);
      }
    }
  }

  lemma BoundStep(p: nat, q: nat, before: nat, next: nat, side: nat)
    requires q * before <= p * side && 20 * next <= 19 * before
    ensures (20 * q) * next <= (19 * p) * side
  {
    Scale(q, 20 * next, 19 * before);
    assert (20 * q) * next == q * (20 * next);
    assert q * (19 * before) == 19 * (q * before);
    assert (19 * p) * side == 19 * (p * side);
  }

  lemma Scale(factor: nat, a: nat, b: nat)
    requires a <= b
    ensures factor * a <= factor * b
  {
  }

  /** Fourteen passes at least halve a side. */
  lemma FourteenPassesHalve(side: nat)
    requires side > 1
    ensures ShrunkTimes(side, 14) <= Max(side / 2, 1)
  {
    ShrunkBound(side, 14);
    Power14();
    if ShrunkTimes(side, 14) > 1 {
      Halves(Power(19, 14), Power(20, 14), ShrunkTimes(side, 14), side);
    }
  }

  lemma Halves(p: nat, q: nat, a: nat, b: nat)
    requires 0 < 2 * p <= q && q * a <= p * b
    ensures 2 * a <= b
  {
    Scale(a, 2 * p, q);
    assert p * (2 * a) <= p * b;
    if 2 * a > b {
      Scale(p, b + 1, 2 * a);
    }
  }

  lemma Power14()
    ensures 0 < 2 * Power(19, 14) <= Power(20, 14)
  {
    assert Power(19, 2) == 361 && Power(20, 2) == 400;
    assert Power(19, 4) == 19 * (19 * 361) && Power(20, 4) == 20 * (20 * 400);
    assert Power(19, 6) == 47045881 && Power(20, 6) == 64000000;
    assert Power(19, 8) == 16983563041 && Power(20, 8) == 25600000000;
    assert Power(19, 10) == 6131066257801 && Power(20, 10) == 10240000000000;
    assert Power(19, 12) == 2213314919066161 && Power(20, 12) == 4096000000000000;
    assert Power(19, 14) == 799006685782884121 && Power(20, 14) == 1638400000000000000;
  }

  /** The number of passes is logarithmic in the size. */
  lemma {:induction false} PassesAreLogarithmic(side: nat)
    ensures Passes(side) <= 14 * Bits(side)
  {
    if side > 1 {
      FourteenPassesHalve(side);
      PassesAfter(side, 14);
      PassesGrow(ShrunkTimes(side, 14), side / 2);
      PassesAreLogarithmic(side / 2);
    }
  }
}
