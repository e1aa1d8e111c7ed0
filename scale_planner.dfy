/**
 * The render scale of a page (`getOptimalScaleFactor` in
 * pages/api/mupdf/convert-page.ts): a high default scale, cut down to the
 * largest tenth that keeps the rendered bitmap within the pixel ceilings,
 * but never below 1.  Page sizes are in points and arithmetic is over the
 * reals.
 */
module ScalePlanner {

  const MaxPixelDimension: real := 8000.0
  const MaxTotalPixels: real := 32000000.0
  const WideThreshold: real := 1600.0
  const WideScale: real := 2.0
  /** Just under 3: the PDF renderer mis-draws tiling patterns at exactly 3. */
  const NarrowScale: real := 2.95

  /** The scale tried first: 2 for pages at least 1600 points wide, 2.95 otherwise. */
  function BaselineScale(width: real): (s: real)
    ensures s == WideScale || s == NarrowScale
    ensures s == WideScale <==> width >= WideThreshold
  {
    if width >= WideThreshold then WideScale else NarrowScale
  }

  /** The bitmap of a `w` × `h` page at scale `s` fits every ceiling. */
  predicate WithinCeilings(w: real, h: real, s: real) {
    && w * s <= MaxPixelDimension
    && h * s <= MaxPixelDimension
    && (w * s) * (h * s) <= MaxTotalPixels
  }

  function MinInt(a: int, b: int): int {
    if a <= b then a else b
  }

  function MinReal(a: real, b: real): real {
    if a <= b then a else b
  }

  function MaxReal(a: real, b: real): real {
    if a >= b then a else b
  }

  lemma SquareMonotone(a: real, b: real)
    requires 0.0 <= a <= b
    ensures a * a <= b * b
  {
    assert a * b - a * a == a * (b - a);
    assert b * b - a * b == b * (b - a);
    assert a * (b - a) >= 0.0 && b * (b - a) >= 0.0;
  }

  lemma SquareStrictMonotone(a: real, b: real)
    requires 0.0 <= a < b
    ensures a * a < b * b
  {
    assert a * b - a * a == a * (b - a);
    assert b * b - a * b == b * (b - a);
    assert a * (b - a) >= 0.0 && b * (b - a) > 0.0;
  }

  lemma SquareAtLeast(m: real)
    requires m >= 1.0
    ensures m <= m * m
  {
    assert m * m - m == m * (m - 1.0);
    assert m * (m - 1.0) >= 0.0;
  }

  /** The largest natural number whose square is at most `y`, searching upward from `n`. */
  function FloorSqrtFrom(y: real, n: nat): (r: nat)
    requires (n as real) * (n as real) <= y
    ensures (r as real) * (r as real) <= y < ((r + 1) as real) * ((r + 1) as real)
    decreases y.Floor - n
  {
    var m := (n + 1) as real;
    if m * m <= y then
      SquareAtLeast(m);
      FloorSqrtFrom(y, n + 1)
    else
      n
  }

  /** ⌊√y⌋, without a square root: the largest natural number whose square is at most `y`. */
  function FloorSqrt(y: real): (r: nat)
    requires y >= 0.0
    ensures (r as real) * (r as real) <= y < ((r + 1) as real) * ((r + 1) as real)
  {
    FloorSqrtFrom(y, 0)
  }

  /** Only one natural number has its square at most `y` and the next square above `y`. */
  lemma FloorSqrtUnique(y: real, n: nat)
    requires (n as real) * (n as real) <= y < ((n + 1) as real) * ((n + 1) as real)
    ensures FloorSqrt(y) == n
  {
    var r := FloorSqrt(y);
    if r < n {
      SquareMonotone((r + 1) as real, n as real);
    } else if r > n {
      SquareMonotone((n + 1) as real, r as real);
    }
  }

  /** Ceilings that hold at a scale hold at every smaller one. */
  lemma CeilingsMonotone(w: real, h: real, s: real, t: real)
    requires w > 0.0 && h > 0.0 && 0.0 <= t <= s
    requires WithinCeilings(w, h, s)
    ensures WithinCeilings(w, h, t)
  {
    assert w * s - w * t == w * (s - t) && w * (s - t) >= 0.0;
    assert h * s - h * t == h * (s - t) && h * (s - t) >= 0.0;
    var x, y, bigX, bigY := w * t, h * t, w * s, h * s;
    MulNonneg(w, t);
    MulNonneg(h, t);
    assert bigX * bigY - x * y == bigX * (bigY - y) + y * (bigX - x);
    MulNonneg(bigX, bigY - y);
    MulNonneg(y, bigX - x);
  }

  /** The product of two non-negative reals is non-negative. */
  lemma MulNonneg(a: real, b: real)
    requires a >= 0.0 && b >= 0.0
    ensures a * b >= 0.0
  {
  }

  /**
   * The area ceiling in terms of the scale alone: `(w·s)·(h·s) ≤ 32e6` iff
   * `s² ≤ 32e6 / (w·h)`.
   */
  lemma AreaCeiling(w: real, h: real, s: real)
    requires w > 0.0 && h > 0.0
    ensures (w * s) * (h * s) <= MaxTotalPixels <==> s * s <= MaxTotalPixels / (w * h)
  {
    var a := w * h;
    assert a > 0.0;
    assert (w * s) * (h * s) == a * (s * s);
    assert a * (MaxTotalPixels / a) == MaxTotalPixels;
    if a * (s * s) <= MaxTotalPixels {
      assert s * s <= MaxTotalPixels / a;
    }
    if s * s <= MaxTotalPixels / a {
      assert a * (s * s) <= a * (MaxTotalPixels / a);
    }
  }

  /** The width ceiling in terms of the scale alone. */
  lemma SideCeiling(w: real, s: real)
    requires w > 0.0
    ensures w * s <= MaxPixelDimension <==> s <= MaxPixelDimension / w
  {
    assert w * (MaxPixelDimension / w) == MaxPixelDimension;
    if w * s <= MaxPixelDimension {
      assert s * w <= (MaxPixelDimension / w) * w;
    }
    if s <= MaxPixelDimension / w {
      assert w * s <= w * (MaxPixelDimension / w);
    }
  }

  lemma DivPositive(x: real, w: real)
    requires x > 0.0 && w > 0.0
    ensures x / w > 0.0
  {
  }

  /** The tenths by one side: `⌊10·(8000/w)⌋`. */
  function SideTenths(w: real): (k: int)
    requires w > 0.0
    ensures k >= 0
  {
    DivPositive(MaxPixelDimension, w);
    (10.0 * (MaxPixelDimension / w)).Floor
  }

  /** The tenths by area: `⌊10·√(32e6/(w·h))⌋`. */
  function AreaTenths(w: real, h: real): nat
    requires w > 0.0 && h > 0.0
  {
    FloorSqrt(100.0 * (MaxTotalPixels / (w * h)))
  }

  lemma SideTenthsFit(w: real, k: int)
    requires w > 0.0 && k <= SideTenths(w)
    ensures w * (k as real / 10.0) <= MaxPixelDimension
  {
    assert k as real <= 10.0 * (MaxPixelDimension / w);
    SideCeiling(w, k as real / 10.0);
  }

  lemma SideTenthsExceed(w: real)
    requires w > 0.0
    ensures w * ((SideTenths(w) + 1) as real / 10.0) > MaxPixelDimension
  {
    var k := SideTenths(w);
    assert (k + 1) as real > 10.0 * (MaxPixelDimension / w);
    SideCeiling(w, (k + 1) as real / 10.0);
  }

  lemma AreaTenthsFit(w: real, h: real, k: nat)
    requires w > 0.0 && h > 0.0 && k <= AreaTenths(w, h)
    ensures (w * (k as real / 10.0)) * (h * (k as real / 10.0)) <= MaxTotalPixels
  {
    var t := MaxTotalPixels / (w * h);
    var f := AreaTenths(w, h);
    var s := k as real / 10.0;
    SquareMonotone(k as real, f as real);
    assert (f as real) * (f as real) <= 100.0 * t;
    assert s * s == (k as real) * (k as real) / 100.0;
    AreaCeiling(w, h, s);
  }

  lemma AreaTenthsExceed(w: real, h: real)
    requires w > 0.0 && h > 0.0
    ensures (w * ((AreaTenths(w, h) + 1) as real / 10.0)) * (h * ((AreaTenths(w, h) + 1) as real / 10.0)) > MaxTotalPixels
  {
    var t := MaxTotalPixels / (w * h);
    var f := AreaTenths(w, h);
    var s := (f + 1) as real / 10.0;
    assert ((f + 1) as real) * ((f + 1) as real) > 100.0 * t;
    assert s * s == ((f + 1) as real) * ((f + 1) as real) / 100.0;
    AreaCeiling(w, h, s);
  }

  /** A number of tenths no larger than any of the three bounds fits every ceiling. */
  lemma TenthsFit(w: real, h: real, k: int)
    requires w > 0.0 && h > 0.0 && 0 <= k
    requires k <= SideTenths(w) && k <= SideTenths(h) && k <= AreaTenths(w, h)
    ensures WithinCeilings(w, h, k as real / 10.0)
  {
    SideTenthsFit(w, k);
    SideTenthsFit(h, k);
    AreaTenthsFit(w, h, k);
  }

  /** One tenth more than one of the three bounds breaks a ceiling. */
  lemma TenthsExceed(w: real, h: real, k: int)
    requires w > 0.0 && h > 0.0
    requires k == SideTenths(w) || k == SideTenths(h) || k == AreaTenths(w, h)
    ensures !WithinCeilings(w, h, (k + 1) as real / 10.0)
  {
    if k == SideTenths(w) {
      SideTenthsExceed(w);
    } else if k == SideTenths(h) {
      SideTenthsExceed(h);
    } else {
      AreaTenthsExceed(w, h);
    }
  }

  /**
   * The number of tenths of the largest tenth within the ceilings:
   * `⌊10·min(8000/w, 8000/h, √(32e6/(w·h)))⌋`.  That many tenths fit, one
   * more does not.
   */
  function CeilingTenths(w: real, h: real): (k: int)
    requires w > 0.0 && h > 0.0
    ensures k >= 0
    ensures WithinCeilings(w, h, k as real / 10.0)
    ensures !WithinCeilings(w, h, (k + 1) as real / 10.0)
  {
    var k := MinInt(MinInt(SideTenths(w), SideTenths(h)), AreaTenths(w, h));
    TenthsFit(w, h, k);
    TenthsExceed(w, h, k);
    k
  }

  /** `getOptimalScaleFactor(width, height)` for a page of positive size. */
  function OptimalScaleFactor(w: real, h: real): (s: real)
    requires w > 0.0 && h > 0.0
    ensures 1.0 <= s <= BaselineScale(w)
    ensures s != 3.0
    ensures WithinCeilings(w, h, BaselineScale(w)) ==> s == BaselineScale(w)
    ensures s == 1.0 || WithinCeilings(w, h, s)
  {
    var base := BaselineScale(w);
    if WithinCeilings(w, h, base) then base
    else
      var k := CeilingTenths(w, h);
      assert k as real / 10.0 < base by {
        if k as real / 10.0 >= base {
          CeilingsMonotone(w, h, k as real / 10.0, base);
        }
      }
      MaxReal(1.0, k as real / 10.0)
  }

  // ----- properties -----

  /**
   * The formula of the source with its square root: for any `r ≥ 0` with
   * `r·r = 32e6/(w·h)` (what `Math.sqrt` computes), the planned scale is the
   * baseline when it fits and `max(1, ⌊10·min(8000/w, 8000/h, r)⌋/10)`
   * otherwise.
   */
  lemma ScaleMatchesSqrtFormula(w: real, h: real, r: real)
    requires w > 0.0 && h > 0.0
    requires r >= 0.0 && r * r == MaxTotalPixels / (w * h)
    ensures OptimalScaleFactor(w, h) ==
      if WithinCeilings(w, h, BaselineScale(w)) then BaselineScale(w)
      else MaxReal(1.0, (10.0 * MinReal(MinReal(MaxPixelDimension / w, MaxPixelDimension / h), r)).Floor as real / 10.0)
  {
    var a := MaxPixelDimension / w;
    var b := MaxPixelDimension / h;
    SqrtTenths(w, h, r);
    FloorOfMin(10.0 * a, 10.0 * b, 10.0 * r);
    assert 10.0 * MinReal(MinReal(a, b), r) == MinReal(MinReal(10.0 * a, 10.0 * b), 10.0 * r);
  }

  /** `⌊10·r⌋` for the square root `r` of `32e6/(w·h)` is the area bound in tenths. */
  lemma SqrtTenths(w: real, h: real, r: real)
    requires w > 0.0 && h > 0.0
    requires r >= 0.0 && r * r == MaxTotalPixels / (w * h)
    ensures (10.0 * r).Floor == AreaTenths(w, h)
  {
    var x := 10.0 * r;
    var n := x.Floor;
    assert n >= 0;
    SquareMonotone(n as real, x);
    SquareStrictMonotone(x, (n + 1) as real);
    assert x * x == 100.0 * (r * r);
    FloorSqrtUnique(100.0 * (MaxTotalPixels / (w * h)), n);
  }

  /** The floor of a minimum is the minimum of the floors. */
  lemma FloorOfMin(x: real, y: real, z: real)
    ensures MinReal(MinReal(x, y), z).Floor == MinInt(MinInt(x.Floor, y.Floor), z.Floor)
  {
  }

  /**
   * The cut-down scale is the largest tenth within the ceilings: any larger
   * tenth up to the baseline breaks one of them.
   */
  lemma ReducedScaleIsLargestTenth(w: real, h: real, k: int)
    requires w > 0.0 && h > 0.0
    requires !WithinCeilings(w, h, BaselineScale(w))
    requires k as real / 10.0 > OptimalScaleFactor(w, h)
    ensures !WithinCeilings(w, h, k as real / 10.0)
  {
    var c := CeilingTenths(w, h);
    assert k >= c + 1;
    if WithinCeilings(w, h, k as real / 10.0) {
      CeilingsMonotone(w, h, k as real / 10.0, (c + 1) as real / 10.0);
    }
  }

  /** A page wider than the pixel ceiling is rendered at scale 1, which still exceeds it. */
  lemma OversizedPageAtScaleOne(w: real, h: real)
    requires w > MaxPixelDimension && h > 0.0
    ensures OptimalScaleFactor(w, h) == 1.0
    ensures !WithinCeilings(w, h, 1.0)
  {
    var k := CeilingTenths(w, h);
    if k >= 10 {
      CeilingsMonotone(w, h, k as real / 10.0, 1.0);
    }
  }

  /** Example: a 600 × 800 page keeps the narrow-page baseline, a 1770 × 2360 bitmap. */
  lemma SmallPageBaseline()
    ensures OptimalScaleFactor(600.0, 800.0) == 2.95
  {
    assert WithinCeilings(600.0, 800.0, 2.95);
  }

  /**
   * Example: a 5000 × 5000 page cannot keep scale 2 (10000 pixels a side); the area
   * ceiling binds (√1.28 ≈ 1.13) and the scale is 1.1.
   */
  lemma SquarePosterScale()
    ensures OptimalScaleFactor(5000.0, 5000.0) == 1.1
  {
    assert !WithinCeilings(5000.0, 5000.0, 2.0);
    assert 100.0 * (MaxTotalPixels / (5000.0 * 5000.0)) == 128.0;
    FloorSqrtUnique(128.0, 11);
    assert (10.0 * MaxPixelDimension / 5000.0).Floor == 16;
  }
}
