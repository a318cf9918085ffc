/** The fixed-point Mandelbrot kernel of `uart-mandelbrot/donut.c`: numbers carry 13
    fraction bits in 32-bit words.

    Every product and sum in `Iterate` and `MandCalc` is assigned to a 32-bit variable
    without a conversion, so that each of them is proved to fit. */
module Mandelbrot {
  import opened MachineInts

  const MAXITERATE: nat := 64
  const NORM_FACT: int := 0x2000
  /** Up to this size of the coordinates no step can leave 32 bits. */
  const BOUND: int := 13570

  /** The exact orbit: squares and products rounded down to 13 fraction bits. */
  function Orbit(real0: int, imag0: int, k: nat): (int, int) {
    if k == 0 then (real0, imag0) else
      var p := Orbit(real0, imag0, k - 1);
      (p.0 * p.0 / NORM_FACT - p.1 * p.1 / NORM_FACT + real0, p.0 * p.1 / (NORM_FACT / 2) + imag0)
  }

  predicate Outside(p: (int, int)) {
    p.0 * p.0 / NORM_FACT + p.1 * p.1 / NORM_FACT > 4 * NORM_FACT
  }

  /** Each step is the complex square plus the constant, scaled by 2^13: the real part to less than
      one unit on either side, the imaginary part rounded down. */
  lemma OrbitSquares(real0: int, imag0: int, k: nat)
    ensures var p, q := Orbit(real0, imag0, k), Orbit(real0, imag0, k + 1);
      && p.0 * p.0 - p.1 * p.1 - 0x2000 < (q.0 - real0) * 0x2000 < p.0 * p.0 - p.1 * p.1 + 0x2000
      && (q.1 - imag0) * 0x2000 <= 2 * (p.0 * p.1) < (q.1 - imag0) * 0x2000 + 0x2000
  {
    OrbitStep(real0, imag0, k, Orbit(real0, imag0, k).0, Orbit(real0, imag0, k).1);
    hide Orbit;
    var p := Orbit(real0, imag0, k);
    Rounded(p.0 * p.0, p.1 * p.1, p.0 * p.1);
  }

  lemma Rounded(rr: int, ii: int, ri: int)
    ensures rr - ii - 0x2000 < (rr / NORM_FACT - ii / NORM_FACT) * 0x2000 < rr - ii + 0x2000
    ensures ri / (NORM_FACT / 2) * 0x2000 <= 2 * ri < ri / (NORM_FACT / 2) * 0x2000 + 0x2000
  {
  }

  /** The test is for a modulus above 2, up to the rounding of the two squares. */
  lemma OutsideMeans(p: (int, int))
    ensures Outside(p) ==> p.0 * p.0 + p.1 * p.1 >= (4 * 0x2000 + 1) * 0x2000
    ensures p.0 * p.0 + p.1 * p.1 >= (4 * 0x2000 + 2) * 0x2000 ==> Outside(p)
  {
  }

  /** The first index at which the orbit is outside, or 64. */
  predicate IsEscape(real0: int, imag0: int, i: nat) {
    && i <= MAXITERATE && (i < MAXITERATE ==> Outside(Orbit(real0, imag0, i)))
    && forall j :: 0 <= j < i ==> !Outside(Orbit(real0, imag0, j))
  }

  /** The origin never gets outside: it has the index 64. */
  lemma OriginStays()
    ensures IsEscape(0, 0, 64)
  {
    forall j: nat
      ensures !Outside(Orbit(0, 0, j))
    {
      OriginFixed(0, 0, j);
    }
  }

  lemma {:induction false} OriginFixed(real0: int, imag0: int, k: nat)
    requires real0 == 0 == imag0
    ensures Orbit(real0, imag0, k) == (0, 0) && !Outside(Orbit(real0, imag0, k))
  {
    hide Orbit;
    if k > 0 {
      OriginFixed(real0, imag0, k - 1);
      OrbitStep(real0, imag0, k - 1, 0, 0);
    } else {
      OrbitStart(real0, imag0);
    }
  }

  /** There is only one such index. */
  lemma EscapeUnique(real0: int, imag0: int, i: nat, j: nat)
    requires IsEscape(real0, imag0, i) && IsEscape(real0, imag0, j)
    ensures i == j
  {
    hide Orbit, Outside;
  }

  predicate Within(x: int, b: int) {
    -b <= x <= b
  }

  lemma SquareWithin(x: int, b: int)
    requires Within(x, b)
    ensures 0 <= x * x <= b * b
  {
    if x >= 0 {
      assert x * x <= x * b <= b * b;
    } else {
      assert x * x == (-x) * (-x) <= (-x) * b <= b * b;
    }
  }

  lemma Quadratic(x: int, y: int)
    ensures 2 * (x * y) <= x * x + y * y && -(2 * (x * y)) <= x * x + y * y
  {
    assert (x - y) * (x - y) == x * x - 2 * (x * y) + y * y;
    assert (x + y) * (x + y) == x * x + 2 * (x * y) + y * y;
    NonNegative(x - y);
    NonNegative(x + y);
  }

  lemma NonNegative(x: int)
    ensures x * x >= 0
  {
  }

  /** Passing the escape test keeps the next point small enough to square. */
  lemma StepStays(re: int, im: int, real0: int, imag0: int)
    requires Within(real0, BOUND) && Within(imag0, BOUND) && !Outside((re, im))
    ensures Within(re * im, 0x7FFF_FFFF)
    ensures Within(re * re / NORM_FACT - im * im / NORM_FACT + real0, 46340)
    ensures Within(re * im / (NORM_FACT / 2) + imag0, 46340)
  {
    Quadratic(re, im);
    NonNegative(re);
    NonNegative(im);
    StepArithmetic(re * re, im * im, re * im, real0, imag0);
  }

  lemma StepArithmetic(rr: int, ii: int, ri: int, real0: int, imag0: int)
    requires rr >= 0 && ii >= 0 && 2 * ri <= rr + ii && -(2 * ri) <= rr + ii
    requires Within(real0, BOUND) && Within(imag0, BOUND) && rr / 0x2000 + ii / 0x2000 <= 4 * 0x2000
    ensures Within(ri, 0x7FFF_FFFF) && Within(rr / 0x2000 - ii / 0x2000 + real0, 46340)
    ensures Within(ri / 0x1000 + imag0, 46340)
  {
    assert rr < 0x2000 * (rr / 0x2000) + 0x2000 && ii < 0x2000 * (ii / 0x2000) + 0x2000;
    assert rr + ii <= 0x2000 * 0x8000 + 2 * 0x1FFF;
  }

  /** Stops at the first index whose point is outside, and no step overflows. */
  method Iterate(real0: s32, imag0: s32) returns (i: nat)
    requires Within(real0, BOUND) && Within(imag0, BOUND)
    ensures IsEscape(real0, imag0, i)
  {
    hide Orbit;
    var re: s32, im: s32 := real0, imag0;
    OrbitStart(real0, imag0);
    i := 0;
    while i < MAXITERATE
      invariant 0 <= i <= MAXITERATE && Within(re, 46340) && Within(im, 46340)
      invariant Orbit(real0, imag0, i) == (re, im)
      invariant forall j :: 0 <= j < i ==> !Outside(Orbit(real0, imag0, j))
    {
      var realq: s32, imagq: s32 := Squares(re, im);
      var sum: s32 := realq + imagq;
      if sum > 4 * NORM_FACT {
        break;
      }
      StepStays(re, im, real0, imag0);
      OrbitStep(real0, imag0, i, re, im);
      hide Outside, Within;
      re, im := Next(re, im, realq, imagq, real0, imag0);
      i := i + 1;
    }
  }

  lemma OrbitStart(real0: int, imag0: int)
    ensures Orbit(real0, imag0, 0) == (real0, imag0)
  {
  }

  lemma OrbitStep(real0: int, imag0: int, i: nat, re: int, im: int)
    requires Orbit(real0, imag0, i) == (re, im)
    ensures Orbit(real0, imag0, i + 1) ==
      (re * re / NORM_FACT - im * im / NORM_FACT + real0, re * im / (NORM_FACT / 2) + imag0)
  {
  }

  /** The two squares, each with its product in 32 bits. */
  method Squares(re: s32, im: s32) returns (realq: s32, imagq: s32)
    requires Within(re, 46340) && Within(im, 46340)
    ensures realq == re * re / NORM_FACT && imagq == im * im / NORM_FACT
    ensures 0 <= realq <= 0x4_0000 && 0 <= imagq <= 0x4_0000
  {
    SquareWithin(re, 46340);
    SquareWithin(im, 46340);
    var rr: s32 := re * re;
    realq := rr / NORM_FACT;
    var ii: s32 := im * im;
    imagq := ii / NORM_FACT;
  }

  method Next(real0: s32, imag0: s32, realq: s32, imagq: s32, c: s32, d: s32) returns (re: s32, im: s32)
    requires 0 <= realq <= 0x4_0000 && 0 <= imagq <= 0x4_0000 && Within(d, BOUND)
    requires Within(real0 * imag0, 0x7FFF_FFFF) && Within(realq as int - imagq + c, 46340)
    requires Within(real0 * imag0 / (NORM_FACT / 2) + d, 46340)
    ensures re == realq as int - imagq + c && im == real0 * imag0 / (NORM_FACT / 2) + d
  {
    var ri: s32 := real0 * imag0;
    var shifted: s32 := ri / (NORM_FACT / 2);
    im := shifted + d;
    var difference: s32 := realq - imagq;
    re := difference + c;
  }

  /** The bound is not a formality: this point passes the escape test three times and
      then has a square beyond 32 bits. */
  lemma OverflowBeyond()
    ensures forall j :: 0 <= j < 3 ==> !Outside(Orbit(-15105, -2333, j))
    ensures var p := Orbit(-15105, -2333, 3); p.0 * p.0 > 0x7FFF_FFFF || p.1 * p.1 > 0x7FFF_FFFF
  {
    hide Orbit;
    OrbitStart(-15105, -2333);
    OrbitStep(-15105, -2333, 0, -15105, -2333);
    OrbitStep(-15105, -2333, 1, 12082, 6270);
    OrbitStep(-15105, -2333, 2, -2084, 16161);
  }

  // ---------------------------------------------------------------------- the image

  /** C division: towards zero. */
  function TruncDiv(d: int, n: int): int
    requires n > 0
  {
    if d >= 0 then d / n else -((-d) / n)
  }

  /** k steps from a towards b, of n that would reach or just miss it. */
  function Grid(a: int, b: int, n: int, k: int): int
    requires n > 0
  {
    a + k * TruncDiv(b - a, n)
  }

  /** The quotient has the sign of the dividend and reaches it, towards zero, as closely as a
      multiple can. */
  lemma TruncDivMeans(d: int, n: int)
    requires n > 0
    ensures var q := TruncDiv(d, n);
      && (d >= 0 ==> q >= 0 && n * q <= d < n * (q + 1))
      && (d <= 0 ==> q <= 0 && n * (q - 1) < d <= n * q)
  {
    FloorDiv(if d >= 0 then d else -d, n);
    Multiples(n, (if d >= 0 then d else -d) / n);
  }

  lemma FloorDiv(a: nat, n: int)
    requires n > 0
    ensures a / n >= 0 && n * (a / n) <= a < n * (a / n) + n
  {
  }

  lemma Multiples(n: int, k: int)
    ensures n * (k + 1) == n * k + n && n * -k == -(n * k) && n * (-k - 1) == -(n * k) - n
  {
  }

  lemma TruncDivNegated(d: int, n: int)
    requires n > 0
    ensures TruncDiv(-d, n) == -TruncDiv(d, n)
  {
  }

  lemma StepsInside(d: int, n: int, k: int)
    requires n > 0 && 0 <= k <= n && d >= 0
    ensures 0 <= k * (d / n) <= d
  {
    var q := d / n;
    assert 0 <= q && n * q <= d;
    assert k * q <= n * q;
  }

  /** A grid point lies between the two ends. */
  lemma GridWithin(a: int, b: int, n: int, k: int, m: int)
    requires n > 0 && 0 <= k <= n && Within(a, m) && Within(b, m)
    ensures Within(Grid(a, b, n, k), m)
  {
    if b >= a {
      StepsInside(b - a, n, k);
    } else {
      StepsInside(a - b, n, k);
      var q := (a - b) / n;
      assert k * (-q) == -(k * q);
    }
  }

  lemma GridNext(a: int, b: int, n: int, k: int)
    requires n > 0
    ensures Grid(a, b, n, 0) == a && Grid(a, b, n, k + 1) == Grid(a, b, n, k) + TruncDiv(b - a, n)
  {
    var q := TruncDiv(b - a, n);
    assert (k + 1) * q == k * q + q;
  }

  /** Where the image keeps column x of row y. */
  function Cell(x: nat, y: nat, hres: nat): nat {
    x + hres * y
  }

  lemma CellInside(x: nat, y: nat, hres: nat, vres: nat)
    requires x < hres && y < vres
    ensures Cell(x, y, hres) < hres * vres
  {
    assert hres * y + hres == hres * (y + 1) <= hres * vres;
  }

  lemma CellsDiffer(x: nat, y: nat, x1: nat, y1: nat, hres: nat)
    requires x < hres && x1 < hres && (x != x1 || y != y1)
    ensures Cell(x, y, hres) != Cell(x1, y1, hres)
  {
    if y < y1 {
      assert hres * y + hres == hres * (y + 1) <= hres * y1;
    } else if y1 < y {
      assert hres * y1 + hres == hres * (y1 + 1) <= hres * y;
    }
  }

  datatype Frame = Frame(realmin: s32, imagmin: s32, realmax: s32, imagmax: s32, hres: nat, vres: nat) {
    predicate Valid() {
      && hres > 0 && vres > 0
      && Within(realmin, BOUND) && Within(imagmin, BOUND) && Within(realmax, BOUND) && Within(imagmax, BOUND)
    }

    /** The point of a pixel: columns from realmin up, rows from imagmax down. */
    function Point(x: nat, y: nat): (int, int)
      requires Valid()
    {
      (Grid(realmin, realmax, hres, x), Grid(imagmax, imagmin, vres, y))
    }

    /** The image holds the escape index of the pixel. */
    predicate Drawn(m: seq<s32>, x: nat, y: nat)
      requires Valid()
    {
      var c := Cell(x, y, hres);
      c < |m| && m[c] >= 0 && IsEscape(Point(x, y).0, Point(x, y).1, m[c])
    }
  }

  lemma PointWithin(f: Frame, x: nat, y: nat)
    requires f.Valid() && x <= f.hres && y <= f.vres
    ensures Within(f.Point(x, y).0, BOUND) && Within(f.Point(x, y).1, BOUND)
  {
    GridWithin(f.realmin, f.realmax, f.hres, x, BOUND);
    GridWithin(f.imagmax, f.imagmin, f.vres, y, BOUND);
  }

  lemma PointNext(f: Frame, x: nat, y: nat)
    requires f.Valid()
    ensures f.Point(0, 0) == (f.realmin, f.imagmax) && f.Point(x, 0).1 == f.imagmax
    ensures f.Point(x + 1, y).0 == f.Point(x, y).0 + TruncDiv(f.realmax as int - f.realmin, f.hres)
    ensures f.Point(x, y + 1).1 == f.Point(x, y).1 - TruncDiv(f.imagmax as int - f.imagmin, f.vres)
    ensures f.Point(x, y).0 == f.Point(x, 0).0
  {
    GridNext(f.realmin, f.realmax, f.hres, x);
    GridNext(f.imagmax, f.imagmin, f.vres, y);
    TruncDivNegated(f.imagmax as int - f.imagmin, f.vres);
  }

  /** Fills every pixel with the escape index of its point, and nothing else; no
      coordinate leaves 32 bits on the way. */
  method MandCalc(image: array<s32>, f: Frame)
    requires f.Valid() && f.hres * f.vres <= image.Length
    modifies image
    ensures forall k :: 0 <= k < f.hres * f.vres ==>
      && image[k] >= 0
      && IsEscape(f.realmin + k % f.hres * TruncDiv(f.realmax as int - f.realmin, f.hres),
                  f.imagmax - k / f.hres * TruncDiv(f.imagmax as int - f.imagmin, f.vres), image[k])
    ensures forall c :: f.hres * f.vres <= c < image.Length ==> image[c] == old(image[c])
  {
    DeltaFits(f);
    hide *;
    var width: s32 := f.realmax - f.realmin;
    var height: s32 := f.imagmax - f.imagmin;
    var deltareal: s32 := TruncDiv(width, f.hres);
    var deltaimag: s32 := TruncDiv(height, f.vres);
    PointNext(f, 0, 0);
    var real0: s32 := f.realmin;
    var x := 0;
    while x < f.hres
      invariant 0 <= x <= f.hres && real0 == f.Point(x, 0).0
      invariant forall x1, y :: 0 <= x1 < x && 0 <= y < f.vres ==> f.Drawn(image[..], x1, y)
      invariant forall c :: f.hres * f.vres <= c < image.Length ==> image[c] == old(image[c])
    {
      DrawColumn(image, f, x, real0, deltaimag);
      PointNext(f, x, 0);
      PointWithin(f, x + 1, 0);
      WithinWord(f.Point(x + 1, 0).0);
      real0 := real0 + deltareal;
      x := x + 1;
    }
    AllDrawn(f, image[..]);
  }

  lemma AllDrawn(f: Frame, m: seq<s32>)
    requires f.Valid() && f.hres > 0 && f.hres * f.vres <= |m|
    requires forall x, y :: 0 <= x < f.hres && 0 <= y < f.vres ==> f.Drawn(m, x, y)
    ensures forall k :: 0 <= k < f.hres * f.vres ==>
      && m[k] >= 0
      && IsEscape(f.realmin + k % f.hres * TruncDiv(f.realmax as int - f.realmin, f.hres),
                  f.imagmax - k / f.hres * TruncDiv(f.imagmax as int - f.imagmin, f.vres), m[k])
  {
    hide *;
    forall k | 0 <= k < f.hres * f.vres
      ensures m[k] >= 0
      ensures IsEscape(f.realmin + k % f.hres * TruncDiv(f.realmax as int - f.realmin, f.hres),
        f.imagmax - k / f.hres * TruncDiv(f.imagmax as int - f.imagmin, f.vres), m[k])
    {
      PixelOf(k, f.hres, f.vres);
      DrawnMeans(f, m, k % f.hres, k / f.hres);
    }
  }

  lemma PixelOf(k: nat, hres: nat, vres: nat)
    requires hres > 0 && k < hres * vres
    ensures k % hres + hres * (k / hres) == k && k % hres < hres && k / hres < vres
  {
    FloorDiv(k, hres);
    Scaled(hres, vres, k / hres);
  }

  lemma Scaled(n: nat, a: nat, b: nat)
    ensures a <= b ==> n * a <= n * b
  {
  }

  /** What is drawn, written out: pixel (x, y) at x + hres * y, its point x steps of the truncated
      width from the left edge and y steps of the truncated height below the top. */
  lemma DrawnMeans(f: Frame, m: seq<s32>, x: nat, y: nat)
    requires f.Valid() && f.Drawn(m, x, y)
    ensures x + f.hres * y < |m| && m[x + f.hres * y] >= 0
    ensures IsEscape(f.realmin + x * TruncDiv(f.realmax as int - f.realmin, f.hres),
      f.imagmax - y * TruncDiv(f.imagmax as int - f.imagmin, f.vres), m[x + f.hres * y])
  {
    hide Frame.Point, IsEscape, TruncDiv;
    PointIs(f, x, y);
  }

  lemma PointIs(f: Frame, x: nat, y: nat)
    requires f.Valid()
    ensures f.Point(x, y).0 == f.realmin + x * TruncDiv(f.realmax as int - f.realmin, f.hres)
    ensures f.Point(x, y).1 == f.imagmax - y * TruncDiv(f.imagmax as int - f.imagmin, f.vres)
  {
    TruncDivNegated(f.imagmax as int - f.imagmin, f.vres);
    hide TruncDiv;
    Multiples(y, TruncDiv(f.imagmax as int - f.imagmin, f.vres));
  }

  lemma WithinWord(v: int)
    requires Within(v, BOUND)
    ensures -0x8000_0000 <= v < 0x8000_0000
  {
  }

  lemma DeltaFits(f: Frame)
    requires f.Valid()
    ensures f.hres > 0 && f.vres > 0
    ensures -0x8000_0000 <= f.realmax as int - f.realmin < 0x8000_0000
    ensures -0x8000_0000 <= f.imagmax as int - f.imagmin < 0x8000_0000
    ensures -0x8000_0000 <= TruncDiv(f.realmax as int - f.realmin, f.hres) < 0x8000_0000
    ensures -0x8000_0000 <= TruncDiv(f.imagmax as int - f.imagmin, f.vres) < 0x8000_0000
  {
    PointNext(f, 0, 0);
    PointWithin(f, 1, 0);
    PointWithin(f, 0, 1);
    hide TruncDiv, Frame.Point;
  }

  /** The inner loop: column x from the top. */
  method DrawColumn(image: array<s32>, f: Frame, x: nat, real0: s32, deltaimag: s32)
    requires f.Valid() && f.hres * f.vres <= image.Length && x < f.hres && f.vres > 0
    requires real0 == f.Point(x, 0).0 && deltaimag == TruncDiv(f.imagmax as int - f.imagmin, f.vres)
    requires forall x1, y :: 0 <= x1 < x && 0 <= y < f.vres ==> f.Drawn(image[..], x1, y)
    modifies image
    ensures forall x1, y :: 0 <= x1 <= x && 0 <= y < f.vres ==> f.Drawn(image[..], x1, y)
    ensures forall c :: f.hres * f.vres <= c < image.Length ==> image[c] == old(image[c])
  {
    hide *;
    PointNext(f, x, 0);
    var imag0: s32 := f.imagmax;
    var y := 0;
    while y < f.vres
      invariant 0 <= y <= f.vres && imag0 == f.Point(x, y).1
      invariant forall x1, y1 :: 0 <= x1 <= x && 0 <= y1 < f.vres && (x1 < x || y1 < y) ==> f.Drawn(image[..], x1, y1)
      invariant forall c :: f.hres * f.vres <= c < image.Length ==> image[c] == old(image[c])
    {
      DrawPixel(image, f, x, y, real0, imag0);
      PointNext(f, x, y);
      PointWithin(f, x, y + 1);
      WithinWord(f.Point(x, y + 1).1);
      imag0 := imag0 - deltaimag;
      y := y + 1;
    }
  }

  method DrawPixel(image: array<s32>, f: Frame, x: nat, y: nat, real0: s32, imag0: s32)
    requires f.Valid() && f.hres * f.vres <= image.Length && x < f.hres && y < f.vres
    requires real0 == f.Point(x, 0).0 && imag0 == f.Point(x, y).1
    modifies image
    ensures f.Drawn(image[..], x, y)
    ensures forall x1, y1 :: 0 <= x1 < f.hres && 0 <= y1 < f.vres && (x1 != x || y1 != y) ==>
      old(f.Drawn(image[..], x1, y1)) ==> f.Drawn(image[..], x1, y1)
    ensures forall c :: f.hres * f.vres <= c < image.Length ==> image[c] == old(image[c])
  {
    hide *;
    ghost var before := image[..];
    PointNext(f, x, y);
    PointWithin(f, x, y);
    CellInside(x, y, f.hres, f.vres);
    var i := Iterate(real0, imag0);
    EscapeSmall(real0, imag0, i);
    image[Cell(x, y, f.hres)] := i;
    DrawnHere(f, image[..], x, y);
    forall x1, y1 | 0 <= x1 < f.hres && 0 <= y1 < f.vres && (x1 != x || y1 != y) && f.Drawn(before, x1, y1)
      ensures f.Drawn(image[..], x1, y1)
    {
      DrawnStill(f, before, image[..], x, y, x1, y1);
    }
  }

  lemma EscapeSmall(re0: int, im0: int, i: nat)
    requires IsEscape(re0, im0, i)
    ensures i <= 64
  {
  }

  lemma DrawnHere(f: Frame, m: seq<s32>, x: nat, y: nat)
    requires f.Valid() && Cell(x, y, f.hres) < |m| && m[Cell(x, y, f.hres)] >= 0
    requires IsEscape(f.Point(x, y).0, f.Point(x, y).1, m[Cell(x, y, f.hres)])
    ensures f.Drawn(m, x, y)
  {
  }

  lemma DrawnStill(f: Frame, m: seq<s32>, m1: seq<s32>, x: nat, y: nat, x1: nat, y1: nat)
    requires f.Valid() && x < f.hres && x1 < f.hres && (x != x1 || y != y1)
    requires Cell(x, y, f.hres) < |m| == |m1| && m1 == m[Cell(x, y, f.hres) := m1[Cell(x, y, f.hres)]]
    requires f.Drawn(m, x1, y1)
    ensures f.Drawn(m1, x1, y1)
  {
    CellsDiffer(x, y, x1, y1, f.hres);
    hide Cell, IsEscape, Frame.Point;
  }
}
