/**
 Shrinking a screenshot until it fits a byte limit. Floating-point numbers are modelled as
 reals; the square root and the image encoder are parameters.
 */
module Screenshot {
  import opened Basics

  datatype Format = Png | Jpeg

  datatype Options = Options(maxWidth: nat, maxHeight: nat, maxBytes: nat, scale: real, format: Format) {
    predicate Resolved() { maxWidth >= 1 && maxHeight >= 1 && maxBytes >= 1 && 0.0 < scale <= 1.0 }
  }

  function Min(a: real, b: real): real { if a <= b then a else b }

  /** Rounding half away from zero, for numbers that are not negative. */
  function Round(x: real): int { (x + 0.5).Floor }

  function Clamp(x: int, low: int, high: int): int
    requires low <= high
  {
    if x < low then low else if x > high then high else x
  }

  // ---------------------------------------------------------------- the starting size

  function ScaleFor(width: nat, height: nat, o: Options): real
    requires width >= 1 && height >= 1
  {
    Min(Min(Min(o.scale, o.maxWidth as real / width as real), o.maxHeight as real / height as real), 1.0)
  }

  function TargetDimensions(width: nat, height: nat, o: Options): (nat, nat)
    requires width >= 1 && height >= 1
  {
    var scale := ScaleFor(width, height, o);
    (TargetSide(width, scale), TargetSide(height, scale))
  }

  function TargetSide(side: nat, scale: real): nat
    requires side >= 1
  {
    RoundedSide(side, side as real * scale)
  }

  function RoundedSide(side: nat, exact: real): nat
    requires side >= 1
  {
    Clamp(Round(exact), 1, side)
  }

  /** A side within its limit, at the scaled length up to rounding. */
  predicate SideFits(target: nat, side: nat, limit: nat, exact: real) {
    1 <= target <= side && target <= limit && (target == 1 || -0.5 <= target as real - exact <= 0.5)
  }

  lemma TargetSideFits(side: nat, limit: nat, scale: real)
    requires side >= 1 && limit >= 1 && 0.0 < scale <= limit as real / side as real && scale <= 1.0
    ensures SideFits(TargetSide(side, scale), side, limit, side as real * scale)
  {
    ExactSideFits(side, limit, scale);
    RoundedSideFits(side, limit, side as real * scale);
  }

  lemma ScaleWithinLimits(width: nat, height: nat, o: Options)
    requires width >= 1 && height >= 1 && o.Resolved()
    ensures 0.0 < ScaleFor(width, height, o) <= 1.0
    ensures ScaleFor(width, height, o) <= o.maxWidth as real / width as real && ScaleFor(width, height, o) <= o.maxHeight as real / height as real
  {
    QuotientPositive(o.maxWidth, width);
    QuotientPositive(o.maxHeight, height);
  }

  lemma ExactSideFits(side: nat, limit: nat, scale: real)
    requires side >= 1 && limit >= 1 && 0.0 < scale <= limit as real / side as real && scale <= 1.0
    ensures 0.0 < side as real * scale <= side as real && side as real * scale <= limit as real
  {
    QuotientTimes(limit as real, side as real);
    MultiplyKeepsOrder(side as real, scale, limit as real / side as real);
    MultiplyKeepsOrder(side as real, scale, 1.0);
    MultiplyPositive(side as real, scale);
  }

  lemma RoundedSideFits(side: nat, limit: nat, exact: real)
    requires side >= 1 && limit >= 1 && 0.0 < exact <= side as real && exact <= limit as real
    ensures SideFits(RoundedSide(side, exact), side, limit, exact)
    ensures exact == side as real ==> RoundedSide(side, exact) == side
  {
    var r := Round(exact);
    assert r as real <= exact + 0.5 < r as real + 1.0;
  }

  lemma QuotientTimes(a: real, b: real)
    requires b > 0.0
    ensures b * (a / b) == a
  {
  }

  lemma MultiplyPositive(a: real, b: real)
    requires a > 0.0 && b > 0.0
    ensures a * b > 0.0
  {
  }

  lemma MultiplyKeepsOrder(a: real, x: real, y: real)
    requires a >= 0.0 && x <= y
    ensures a * x <= a * y
  {
  }

  lemma QuotientPositive(a: nat, b: nat)
    requires a >= 1 && b >= 1
    ensures a as real / b as real > 0.0
  {
  }

  /** The starting size respects the limits and keeps the proportions up to rounding. */
  lemma StartingSizeFits(width: nat, height: nat, o: Options)
    requires width >= 1 && height >= 1 && o.Resolved()
    ensures SideFits(TargetDimensions(width, height, o).0, width, o.maxWidth, width as real * ScaleFor(width, height, o))
    ensures SideFits(TargetDimensions(width, height, o).1, height, o.maxHeight, height as real * ScaleFor(width, height, o))
  {
    ScaleWithinLimits(width, height, o);
    TargetSideFits(width, o.maxWidth, ScaleFor(width, height, o));
    TargetSideFits(height, o.maxHeight, ScaleFor(width, height, o));
  }

  /** A screenshot within the limits is left at its own size. */
  lemma FittingSizeIsKept(width: nat, height: nat, o: Options)
    requires width >= 1 && height >= 1 && o.Resolved() && o.scale == 1.0 && width <= o.maxWidth && height <= o.maxHeight
    ensures TargetDimensions(width, height, o) == (width, height)
  {
    QuotientAtLeastOne(o.maxWidth, width);
    QuotientAtLeastOne(o.maxHeight, height);
    assert ScaleFor(width, height, o) == 1.0;
    RoundedSideFits(width, width, width as real);
    RoundedSideFits(height, height, height as real);
  }

  lemma QuotientAtLeastOne(a: nat, b: nat)
    requires a >= b >= 1
    ensures a as real / b as real >= 1.0
  {
  }

  // ---------------------------------------------------------------- one round

  /** What the model needs of a square root: it keeps the unit interval. */
  ghost predicate IsRoot(sqrt: real -> real) { forall x: real | 0.0 <= x <= 1.0 :: 0.0 <= sqrt(x) <= 1.0 }

  function Shrink(sqrt: real -> real, encoded: nat, maxBytes: nat): real
    requires encoded >= 1
  {
    var s := sqrt(maxBytes as real / encoded as real) * 0.9;
    if s < 0.1 then 0.1 else if s > 0.95 then 0.95 else s
  }

  function NextSide(side: nat, shrink: real): nat
    requires shrink >= 0.0
  {
    var scaled := (side as real * shrink).Floor;
    var next := if scaled < 1 then 1 else scaled;
    if next >= side && side > 1 then side - 1 else next
  }

  function NextDimensions(sqrt: real -> real, size: (nat, nat), encoded: nat, maxBytes: nat): (nat, nat)
    requires encoded >= 1
  {
    var shrink := Shrink(sqrt, encoded, maxBytes);
    (NextSide(size.0, shrink), NextSide(size.1, shrink))
  }

  /** An image over the limit shrinks by a tenth at least: the upper bound of the clamp is never reached. */
  lemma ShrinkIsStrong(sqrt: real -> real, encoded: nat, maxBytes: nat)
    requires IsRoot(sqrt) && encoded > maxBytes
    ensures 0.1 <= Shrink(sqrt, encoded, maxBytes) <= 0.9
  {
    var ratio := maxBytes as real / encoded as real;
    assert 0.0 <= ratio <= 1.0;
  }

  /** Above one pixel a side strictly shrinks, by a tenth at least unless it reaches one pixel. */
  lemma SideShrinks(side: nat, shrink: real)
    requires side >= 1 && 0.1 <= shrink <= 0.9
    ensures 1 <= NextSide(side, shrink) <= side
    ensures side > 1 ==> NextSide(side, shrink) < side
    ensures NextSide(side, shrink) == 1 || 10 * NextSide(side, shrink) <= 9 * side
  {
    MultiplyKeepsOrder(side as real, shrink, 0.9);
    FloorOfTenths(side, side as real * shrink);
  }

  lemma FloorOfTenths(side: nat, x: real)
    requires x <= side as real * 0.9
    ensures 10 * x.Floor <= 9 * side
  {
    assert x.Floor as real <= x;
    assert (10 * x.Floor) as real <= (9 * side) as real;
  }

  // ---------------------------------------------------------------- the rounds

  /** Everything a run depends on; `encoder` may fail, and may answer differently in every round. */
  datatype Job = Job(original: (nat, nat), rawBytes: nat, start: (nat, nat), options: Options,
                     sqrt: real -> real, encoder: (nat, nat, nat) -> Option<nat>) {
    ghost predicate Sound() { start.0 >= 1 && start.1 >= 1 && IsRoot(sqrt) }

    /** The bytes of round `k` at some size: the untouched original is not encoded again. */
    function BytesAt(k: nat, size: (nat, nat)): Option<nat> {
      if options.format.Png? && size == original then Some(rawBytes) else encoder(k, size.0, size.1)
    }

    /** The size tried in round `k`, as long as the rounds before were over the limit. */
    function SizeAt(k: nat): (nat, nat) {
      if k == 0 then start
      else
        var size := SizeAt(k - 1);
        match BytesAt(k - 1, size)
        case None => size
        case Some(bytes) => if bytes == 0 then size else NextDimensions(sqrt, size, bytes, options.maxBytes)
    }

    predicate OverAt(k: nat) {
      BytesAt(k, SizeAt(k)).Some? && BytesAt(k, SizeAt(k)).value > options.maxBytes
    }

    /** The first `k` rounds were all over the limit. */
    ghost predicate OverUntil(k: nat) { forall j: nat | j < k :: OverAt(j) }
  }

  function Power(base: nat, k: nat): nat { if k == 0 then 1 else base * Power(base, k - 1) }

  lemma OneMorePower(next: nat, side: nat, start: nat, k: nat)
    requires 10 * next <= 9 * side && Power(10, k) * side <= Power(9, k) * start
    ensures Power(10, k + 1) * next <= Power(9, k + 1) * start
  {
    var a, b := Power(10, k), Power(9, k);
    calc {
      Power(10, k + 1) * next;
    ==
      a * (10 * next);
    <= { MultiplyNat(a, 10 * next, 9 * side); }
      a * (9 * side);
    ==
      9 * (a * side);
    <=
      9 * (b * start);
    ==
      Power(9, k + 1) * start;
    }
  }

  lemma MultiplyNat(a: nat, x: nat, y: nat)
    requires x <= y
    ensures a * x <= a * y
  {
  }

  /** After `k` rounds a side is one pixel or at most (9/10)^k of its start. */
  lemma {:induction false} SidesDecay(job: Job, k: nat)
    requires job.Sound() && job.OverUntil(k)
    ensures
      var size := job.SizeAt(k);
      && 1 <= size.0 <= job.start.0 && 1 <= size.1 <= job.start.1
      && (size.0 == 1 || Power(10, k) * size.0 <= Power(9, k) * job.start.0)
      && (size.1 == 1 || Power(10, k) * size.1 <= Power(9, k) * job.start.1)
  {
    if k > 0 {
      SidesDecay(job, k - 1);
      RoundShrinks(job, k - 1);
      var before, size := job.SizeAt(k - 1), job.SizeAt(k);
      if size.0 > 1 { OneMorePower(size.0, before.0, job.start.0, k - 1); }
      if size.1 > 1 { OneMorePower(size.1, before.1, job.start.1, k - 1); }
    }
  }

  lemma RoundShrinks(job: Job, k: nat)
    requires job.Sound() && job.OverAt(k) && job.SizeAt(k).0 >= 1 && job.SizeAt(k).1 >= 1
    ensures
      var (size, next) := (job.SizeAt(k), job.SizeAt(k + 1));
      && 1 <= next.0 <= size.0 && (size.0 > 1 ==> next.0 < size.0) && (next.0 == 1 || 10 * next.0 <= 9 * size.0)
      && 1 <= next.1 <= size.1 && (size.1 > 1 ==> next.1 < size.1) && (next.1 == 1 || 10 * next.1 <= 9 * size.1)
  {
    var size := job.SizeAt(k);
    var bytes := job.BytesAt(k, size).value;
    ShrinkIsStrong(job.sqrt, bytes, job.options.maxBytes);
    var shrink := Shrink(job.sqrt, bytes, job.options.maxBytes);
    SideShrinks(size.0, shrink);
    SideShrinks(size.1, shrink);
  }

  datatype Outcome = Fits(bytes: nat, width: nat, height: nat) | EncoderFailed | TooLargeAtOnePixel(bytes: nat)

  /**
   The loop ends for every encoder. `rounds` counts the attempts before the last one, all of
   them over the limit and above one pixel; the last one decides.
   */
  method EncodeToFitBytes(job: Job) returns (outcome: Outcome, ghost rounds: nat)
    requires job.Sound()
    ensures job.OverUntil(rounds) && forall j: nat | j < rounds :: job.SizeAt(j) != (1, 1)
    ensures
      var size := job.SizeAt(rounds);
      match job.BytesAt(rounds, size)
      case None => outcome == EncoderFailed
      case Some(bytes) =>
        if bytes <= job.options.maxBytes then outcome == Fits(bytes, size.0, size.1)
        else size == (1, 1) && outcome == TooLargeAtOnePixel(bytes)
    ensures outcome.Fits? ==> outcome.bytes <= job.options.maxBytes && 1 <= outcome.width <= job.start.0 && 1 <= outcome.height <= job.start.1
    ensures rounds < job.start.0 || rounds < job.start.1
  {
    var size := job.start;
    var round: nat := 0;
    rounds := 0;
    while true
      invariant round == rounds && size == job.SizeAt(rounds) && job.OverUntil(rounds)
      invariant forall j: nat | j < rounds :: job.SizeAt(j) != (1, 1)
      invariant 1 <= size.0 <= job.start.0 && 1 <= size.1 <= job.start.1
      invariant (size.0 > 1 ==> size.0 + rounds <= job.start.0) && (size.1 > 1 ==> size.1 + rounds <= job.start.1)
      invariant rounds < job.start.0 || rounds < job.start.1
      decreases size.0 + size.1
    {
      var encoded := job.BytesAt(round, size);
      if encoded.None? {
        return EncoderFailed, rounds;
      }
      var bytes := encoded.value;
      if bytes <= job.options.maxBytes {
        return Fits(bytes, size.0, size.1), rounds;
      }
      if size == (1, 1) {
        return TooLargeAtOnePixel(bytes), rounds;
      }
      RoundShrinks(job, rounds);
      size := NextDimensions(job.sqrt, size, bytes, job.options.maxBytes);
      round, rounds := round + 1, rounds + 1;
    }
  }
}
