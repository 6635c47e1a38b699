/** The blur filter: spread of the Laplacian responses of the gray image. */
module BlurFilters {
  import opened Rectangles
  import opened RowMajor
  import opened Images
  import opened Filters

  // ---------- the specification ----------

  function Luma(c: Rgb): real {
    0.299 * c.r as real + 0.587 * c.g as real + 0.114 * c.b as real
  }

  /** The gray level at column x and row y, counted from the corner of the image. */
  function GrayField(img: Image): (int, int) -> real {
    (x, y) => Luma(img.at(x + img.bounds.minX, y + img.bounds.minY))
  }

  /** The discrete Laplacian. */
  function Laplacian(g: (int, int) -> real, x: int, y: int): real {
    g(x, y - 1) + g(x - 1, y) - 4.0 * g(x, y) + g(x + 1, y) + g(x, y + 1)
  }

  /** The responses at all interior points, row by row. When both sides are below two
      the code allocates a few responses but computes none, so they stay zero. */
  function Responses(g: (int, int) -> real, w: nat, h: nat): seq<real>
    requires (w - 2) * (h - 2) >= 0
  {
    if w > 2 && h > 2 then
      seq((w - 2) * (h - 2), i requires 0 <= i => Laplacian(g, 1 + i % (w - 2), 1 + i / (w - 2)))
    else seq((w - 2) * (h - 2), _ => 0.0)
  }

  function Sum(rs: seq<real>): real {
    if rs == [] then 0.0 else Sum(rs[..|rs| - 1]) + rs[|rs| - 1]
  }

  function SumOfSquares(rs: seq<real>): real {
    if rs == [] then 0.0 else SumOfSquares(rs[..|rs| - 1]) + rs[|rs| - 1] * rs[|rs| - 1]
  }

  /** Squared deviations from m. */
  function Deviations(rs: seq<real>, m: real): real {
    if rs == [] then 0.0
    else
      var d := rs[|rs| - 1] - m;
      Deviations(rs[..|rs| - 1], m) + d * d
  }

  function Variance(rs: seq<real>): real
    requires rs != []
  {
    Deviations(rs, Sum(rs) / |rs| as real) / |rs| as real
  }

  /** The measured spread, of which the score is the square root. Without responses
      both passes divide zero by zero. */
  function Measure(img: Image): Score
    requires Measurable(img.bounds)
  {
    var rs := Responses(GrayField(img), img.bounds.Dx(), img.bounds.Dy());
    if rs == [] then NotANumber else RootOf(Variance(rs))
  }

  // ---------- the two passes ----------

  /** The sum of k - c r over the numbers r. */
  function Shifts(rs: seq<real>, c: real, k: real): real {
    if rs == [] then 0.0 else Shifts(rs[..|rs| - 1], c, k) + (k - c * rs[|rs| - 1])
  }

  lemma SquareOfDifference(r: real, m: real, d: real, q: real)
    requires d == r - m && q == r * r
    ensures d * d == q + (m * m - 2.0 * m * r)
  {
  }

  lemma {:induction false} DeviationsAreShifts(rs: seq<real>, m: real)
    ensures Deviations(rs, m) == SumOfSquares(rs) + Shifts(rs, 2.0 * m, m * m)
  {
    if rs != [] {
      var r := rs[|rs| - 1];
      DeviationsAreShifts(rs[..|rs| - 1], m);
      SquareOfDifference(r, m, r - m, r * r);
    }
  }

  lemma {:induction false} ShiftsAreLinear(rs: seq<real>, n: real, c: real, k: real)
    requires n == |rs| as real
    ensures Shifts(rs, c, k) == n * k - c * Sum(rs)
  {
    if rs != [] {
      var init, r := rs[..|rs| - 1], rs[|rs| - 1];
      ShiftsAreLinear(init, n - 1.0, c, k);
      assert (n - 1.0) * k == n * k - k;
      assert c * (Sum(init) + r) == c * Sum(init) + c * r;
    }
  }

  /** The squared deviations from m of n numbers with sum s and sum of squares q. */
  lemma DeviationsNamed(rs: seq<real>, n: real, s: real, q: real, m: real, d: real)
    requires n == |rs| as real && s == Sum(rs) && q == SumOfSquares(rs) && d == Deviations(rs, m)
    ensures d == q - 2.0 * m * s + n * (m * m)
  {
    DeviationsAreShifts(rs, m);
    ShiftsAreLinear(rs, n, 2.0 * m, m * m);
  }

  lemma MeanAndVariance(rs: seq<real>, n: real, s: real, v: real) returns (m: real, d: real)
    requires rs != [] && n == |rs| as real && s == Sum(rs) && v == Variance(rs)
    ensures m * n == s && v * n == d && d == Deviations(rs, m)
  {
    m := s / n;
    d := Deviations(rs, m);
    TimesDivisor(s, n, m);
    TimesDivisor(d, n, v);
  }

  lemma TimesDivisor(a: real, b: real, q: real)
    requires b != 0.0 && q == a / b
    ensures q * b == a
  {
  }

  lemma VarianceAlgebra(n: real, s: real, q: real, m: real, d: real, v: real)
    requires m * n == s && v * n == d && d == q - 2.0 * m * s + n * (m * m)
    ensures v * (n * n) == n * q - s * s
  {
    assert n * (m * m) * n == (m * n) * (m * n);
    assert 2.0 * m * s * n == 2.0 * (m * n) * s;
    assert v * (n * n) == (v * n) * n;
  }

  /** The two-pass spread v of n responses with sum s and sum of squares q equals the
      one-pass formula, cleared of fractions. */
  lemma VarianceFormula(rs: seq<real>, n: real, s: real, q: real, v: real)
    requires rs != [] && n == |rs| as real && s == Sum(rs) && q == SumOfSquares(rs) && v == Variance(rs)
    ensures v * (n * n) == n * q - s * s
  {
    var m, d := MeanAndVariance(rs, n, s, v);
    DeviationsNamed(rs, n, s, q, m, d);
    VarianceAlgebra(n, s, q, m, d, v);
  }

  method TwoPass(responses: array<real>) returns (variance: real)
    requires responses.Length > 0
    ensures variance == Variance(responses[..])
  {
    var n := responses.Length;
    var mean := 0.0;
    for i := 0 to n
      invariant mean == Sum(responses[..i])
    {
      assert responses[..i + 1][..i] == responses[..i];
      mean := mean + responses[i];
    }
    assert responses[..n] == responses[..];
    mean := mean / n as real;
    variance := 0.0;
    for i := 0 to n
      invariant variance == Deviations(responses[..i], mean)
    {
      assert responses[..i + 1][..i] == responses[..i];
      var d := responses[i] - mean;
      variance := variance + d * d;
    }
    variance := variance / n as real;
  }

  // ---------- the loops ----------

  /** One round of the gray loops. */
  method StoreGray(img: Image, gray: array<real>, w: int, h: int, x: int, y: int)
    requires 0 <= x < w && 0 <= y < h && gray.Length == w * h
    requires Filled(gray[..], GrayField(img), w, y * w + x)
    modifies gray
    ensures Filled(gray[..], GrayField(img), w, y * w + x + 1)
  {
    FlatInside(w, h, x, y);
    FillNext(gray[..], GrayField(img), w, x, y, y * w + x);
    gray[y * w + x] := Luma(img.at(x + img.bounds.minX, y + img.bounds.minY));
    assert gray[..] == old(gray[..])[y * w + x := GrayField(img)(x, y)];
  }

  method FillRow(img: Image, gray: array<real>, w: int, h: int, y: int)
    requires 0 < w && 0 <= y < h && gray.Length == w * h
    requires Filled(gray[..], GrayField(img), w, y * w)
    modifies gray
    ensures Filled(gray[..], GrayField(img), w, y * w + w)
  {
    for x := 0 to w
      invariant Filled(gray[..], GrayField(img), w, y * w + x)
    {
      StoreGray(img, gray, w, h, x, y);
    }
  }

  /** The gray loops. */
  method FillGray(img: Image, w: int, h: int) returns (gray: array<real>)
    requires 0 < w == img.bounds.Dx() && 0 <= h == img.bounds.Dy()
    ensures fresh(gray) && gray.Length == w * h
    ensures Filled(gray[..], GrayField(img), w, w * h)
  {
    ProductMonotone(0, w, h);
    gray := new real[w * h];
    for y := 0 to h
      invariant Filled(gray[..], GrayField(img), w, y * w)
    {
      FillRow(img, gray, w, h, y);
      NextRow(w, y);
    }
    assert h * w == w * h;
  }

  /** A value times the kernel cell in column kx and row ky. */
  function Weighted(v: real, kx: int, ky: int): real {
    if kx == 1 && ky == 1 then -4.0 * v else if kx == 1 || ky == 1 then v else 0.0
  }

  /** The convolution at (x, y) over the kernel rows before ky and the first kx cells
      of row ky. */
  function Convolved(g: (int, int) -> real, x: int, y: int, kx: nat, ky: nat): real
    decreases ky, kx
  {
    if kx > 0 then Convolved(g, x, y, kx - 1, ky) + Weighted(g(x + kx - 2, y + ky - 1), kx - 1, ky)
    else if ky > 0 then Convolved(g, x, y, 3, ky - 1)
    else 0.0
  }

  /** The nine products add up to the discrete Laplacian. */
  lemma ConvolvedIsLaplacian(g: (int, int) -> real, x: int, y: int)
    ensures Convolved(g, x, y, 0, 3) == Laplacian(g, x, y)
  {
    assert Convolved(g, x, y, 3, 0) == g(x, y - 1);
    assert Convolved(g, x, y, 3, 1) == Convolved(g, x, y, 0, 1) + g(x - 1, y) - 4.0 * g(x, y) + g(x + 1, y);
    assert Convolved(g, x, y, 3, 2) == Convolved(g, x, y, 0, 2) + g(x, y + 1);
  }

  ghost predicate IsLaplaceKernel(kernel: seq<seq<real>>) {
    |kernel| == 3 && (forall i :: 0 <= i < 3 ==> |kernel[i]| == 3) &&
    kernel[0] == [0.0, 1.0, 0.0] && kernel[1] == [1.0, -4.0, 1.0] && kernel[2] == [0.0, 1.0, 0.0]
  }

  lemma KernelCell(gray: seq<real>, kernel: seq<seq<real>>, g: (int, int) -> real, w: int, h: int,
                   x: int, y: int, kx: int, ky: int)
    requires 0 <= x < w && 0 <= y < h && |gray| == w * h && Filled(gray, g, w, |gray|)
    requires IsLaplaceKernel(kernel) && 0 <= kx < 3 && 0 <= ky < 3
    ensures 0 <= y * w + x < |gray|
    ensures gray[y * w + x] * kernel[ky][kx] == Weighted(g(x, y), kx, ky)
  {
    ReadCell(gray, g, w, h, x, y);
  }

  /** The inner kernel loop: one kernel row at one interior point. */
  method ConvolveCells(gray: array<real>, kernel: seq<seq<real>>, w: int, h: int, x: int, y: int, ky: int,
                       start: real, ghost g: (int, int) -> real) returns (sum: real)
    requires 1 <= x < w - 1 && 1 <= y < h - 1 && gray.Length == w * h && Filled(gray[..], g, w, gray.Length)
    requires IsLaplaceKernel(kernel) && -1 <= ky < 2 && start == Convolved(g, x, y, 0, ky + 1)
    ensures sum == Convolved(g, x, y, 3, ky + 1)
  {
    sum := start;
    for kx := -1 to 2
      invariant sum == Convolved(g, x, y, kx + 1, ky + 1)
    {
      KernelCell(gray[..], kernel, g, w, h, x + kx, y + ky, kx + 1, ky + 1);
      sum := sum + gray[(y + ky) * w + (x + kx)] * kernel[ky + 1][kx + 1];
    }
  }

  /** The kernel loops at one interior point. */
  method ConvolveAt(gray: array<real>, kernel: seq<seq<real>>, w: int, h: int, x: int, y: int,
                    ghost g: (int, int) -> real) returns (sum: real)
    requires 1 <= x < w - 1 && 1 <= y < h - 1 && gray.Length == w * h && Filled(gray[..], g, w, gray.Length)
    requires IsLaplaceKernel(kernel)
    ensures sum == Laplacian(g, x, y)
  {
    sum := 0.0;
    for ky := -1 to 2
      invariant sum == Convolved(g, x, y, 0, ky + 1)
    {
      sum := ConvolveCells(gray, kernel, w, h, x, y, ky, sum, g);
    }
    ConvolvedIsLaplacian(g, x, y);
  }

  /** The responses at the interior points, in row-major order. */
  ghost function Interior(g: (int, int) -> real): (int, int) -> real {
    (x, y) => Laplacian(g, x + 1, y + 1)
  }

  /** One round of the convolution loops. */
  method StoreResponse(gray: array<real>, kernel: seq<seq<real>>, responses: array<real>, w: int, h: int,
                       x: int, y: int, idx: int, ghost g: (int, int) -> real)
    requires 1 <= x < w - 1 && 1 <= y < h - 1 && gray.Length == w * h && Filled(gray[..], g, w, gray.Length)
    requires IsLaplaceKernel(kernel) && responses != gray && responses.Length == (w - 2) * (h - 2)
    requires idx == (y - 1) * (w - 2) + (x - 1) && Filled(responses[..], Interior(g), w - 2, idx)
    modifies responses
    ensures Filled(responses[..], Interior(g), w - 2, idx + 1)
  {
    var sum := ConvolveAt(gray, kernel, w, h, x, y, g);
    FlatInside(w - 2, h - 2, x - 1, y - 1);
    FillNext(responses[..], Interior(g), w - 2, x - 1, y - 1, idx);
    responses[idx] := sum;
    assert responses[..] == old(responses[..])[idx := Interior(g)(x - 1, y - 1)];
  }

  method ConvolveRow(gray: array<real>, kernel: seq<seq<real>>, responses: array<real>, w: int, h: int, y: int,
                     start: int, ghost g: (int, int) -> real) returns (idx: int)
    requires 2 < w && 1 <= y < h - 1 && gray.Length == w * h && Filled(gray[..], g, w, gray.Length)
    requires IsLaplaceKernel(kernel) && responses != gray && responses.Length == (w - 2) * (h - 2)
    requires start == (y - 1) * (w - 2) && Filled(responses[..], Interior(g), w - 2, start)
    modifies responses
    ensures idx == start + (w - 2) && Filled(responses[..], Interior(g), w - 2, idx)
  {
    idx := start;
    for x := 1 to w - 1
      invariant idx == start + (x - 1) && Filled(responses[..], Interior(g), w - 2, idx)
    {
      StoreResponse(gray, kernel, responses, w, h, x, y, idx, g);
      idx := idx + 1;
    }
  }

  method ConvolveRows(gray: array<real>, kernel: seq<seq<real>>, responses: array<real>, w: int, h: int,
                      ghost g: (int, int) -> real)
    requires 2 < w && 2 < h && gray.Length == w * h && Filled(gray[..], g, w, gray.Length)
    requires IsLaplaceKernel(kernel) && responses != gray && responses.Length == (w - 2) * (h - 2)
    modifies responses
    ensures Filled(responses[..], Interior(g), w - 2, (h - 2) * (w - 2))
  {
    var idx := 0;
    for y := 1 to h - 1
      invariant idx == (y - 1) * (w - 2) && Filled(responses[..], Interior(g), w - 2, idx)
    {
      idx := ConvolveRow(gray, kernel, responses, w, h, y, idx, g);
      NextRow(w - 2, y - 1);
    }
  }

  method Convolve(gray: array<real>, w: int, h: int, ghost g: (int, int) -> real) returns (responses: array<real>)
    requires 2 < w && 2 < h && gray.Length == w * h && Filled(gray[..], g, w, gray.Length)
    ensures responses.Length == (w - 2) * (h - 2)
    ensures Filled(responses[..], Interior(g), w - 2, responses.Length)
  {
    var kernel := [[0.0, 1.0, 0.0], [1.0, -4.0, 1.0], [0.0, 1.0, 0.0]];
    ProductMonotone(0, w - 2, h - 2);
    responses := new real[(w - 2) * (h - 2)];
    ConvolveRows(gray, kernel, responses, w, h, g);
    assert (h - 2) * (w - 2) == (w - 2) * (h - 2);
  }

  lemma FilledIsResponses(rs: seq<real>, g: (int, int) -> real, w: int, h: int)
    requires 2 < w && 2 < h && |rs| == (w - 2) * (h - 2) && Filled(rs, Interior(g), w - 2, |rs|)
    ensures rs == Responses(g, w, h)
  {
    assert forall i :: 0 <= i < |rs| ==> rs[i] == Responses(g, w, h)[i];
  }

  /** The whole measurement. */
  method LaplacianVariance(img: Image) returns (score: Score)
    requires Measurable(img.bounds)
    ensures score == Measure(img)
  {
    var w, h := img.bounds.Dx(), img.bounds.Dy();
    ghost var g := GrayField(img);
    var responses: array<real>;
    if w > 2 && h > 2 {
      var gray := FillGray(img, w, h);
      responses := Convolve(gray, w, h, g);
      FilledIsResponses(responses[..], g, w, h);
    } else {
      responses := new real[(w - 2) * (h - 2)](_ => 0.0);
      assert responses[..] == Responses(g, w, h);
    }
    if responses.Length == 0 {
      return NotANumber;
    }
    var variance := TwoPass(responses);
    return RootOf(variance);
  }

  // ---------- facts about the measure ----------

  /** `tilted` is `g` plus the affine function a + b x + c y on the image. */
  ghost predicate Tilted(g: (int, int) -> real, tilted: (int, int) -> real, w: int, h: int, a: real, b: real, c: real) {
    forall x, y :: 0 <= x < w && 0 <= y < h ==> tilted(x, y) == g(x, y) + Plane(a, b, c, x, y)
  }

  function Plane(a: real, b: real, c: real, x: int, y: int): real {
    a + b * x as real + c * y as real
  }

  /** The Laplacian of a plane is zero. */
  lemma PlaneIsFlat(a: real, b: real, c: real, x: int, y: int)
    ensures Plane(a, b, c, x, y - 1) + Plane(a, b, c, x - 1, y) - 4.0 * Plane(a, b, c, x, y)
          + Plane(a, b, c, x + 1, y) + Plane(a, b, c, x, y + 1) == 0.0
  {
  }

  lemma InteriorIndex(w: int, h: int, i: int)
    requires 2 < w && 2 < h && 0 <= i < (w - 2) * (h - 2)
    ensures 1 <= 1 + i % (w - 2) < w - 1 && 1 <= 1 + i / (w - 2) < h - 1
  {
    var q := i / (w - 2);
    assert i == q * (w - 2) + i % (w - 2);
    if q >= h - 2 {
      ProductMonotone(h - 2, q, w - 2);
    }
  }

  lemma TiltedLaplacian(g: (int, int) -> real, tilted: (int, int) -> real, w: int, h: int,
                        a: real, b: real, c: real, x: int, y: int)
    requires Tilted(g, tilted, w, h, a, b, c) && 1 <= x < w - 1 && 1 <= y < h - 1
    ensures Laplacian(tilted, x, y) == Laplacian(g, x, y)
  {
    PlaneIsFlat(a, b, c, x, y);
  }

  /** Adding an affine gradient to the gray image changes no response, hence neither
      the spread nor the verdict. */
  lemma AffineInvariance(g: (int, int) -> real, tilted: (int, int) -> real, w: nat, h: nat, a: real, b: real, c: real)
    requires (w - 2) * (h - 2) >= 0 && Tilted(g, tilted, w, h, a, b, c)
    ensures Responses(tilted, w, h) == Responses(g, w, h)
  {
    if 2 < w && 2 < h {
      forall i | 0 <= i < (w - 2) * (h - 2)
        ensures Responses(tilted, w, h)[i] == Responses(g, w, h)[i]
      {
        InteriorIndex(w, h, i);
        TiltedLaplacian(g, tilted, w, h, a, b, c, 1 + i % (w - 2), 1 + i / (w - 2));
      }
    }
  }

  lemma {:induction false} ZerosHaveNoSpread(rs: seq<real>)
    requires forall i :: 0 <= i < |rs| ==> rs[i] == 0.0
    ensures Sum(rs) == 0.0 && Deviations(rs, 0.0) == 0.0
  {
    if rs != [] {
      ZerosHaveNoSpread(rs[..|rs| - 1]);
    }
  }

  /** A pure gradient scores zero. */
  lemma GradientScoresZero(g: (int, int) -> real, w: nat, h: nat, a: real, b: real, c: real)
    requires (w - 2) * (h - 2) > 0 && Tilted((x, y) => 0.0, g, w, h, a, b, c)
    ensures |Responses(g, w, h)| > 0 && Variance(Responses(g, w, h)) == 0.0
  {
    var dark := (x: int, y: int) => 0.0;
    assert Tilted(dark, g, w, h, a, b, c);
    AffineInvariance(dark, g, w, h, a, b, c);
    ZerosHaveNoSpread(Responses(dark, w, h));
    var n := |Responses(g, w, h)| as real;
    assert 0.0 / n == 0.0;
  }

  lemma LumaRange(c: Rgb)
    ensures 0.0 <= Luma(c) <= 255.0
  {
  }

  lemma RealProduct(a: real, b: real)
    requires 0.0 <= a && 0.0 <= b
    ensures 0.0 <= a * b
  {
  }

  lemma PositiveProduct(a: real, b: real, product: real)
    requires 0.0 < a && 0.0 < b && product == a * b
    ensures 0.0 < product
  {
  }

  lemma SquareBound(r: real, b: real)
    requires -b <= r <= b
    ensures r * r <= b * b
  {
    RealProduct(b - r, b + r);
    assert (b - r) * (b + r) == b * b - r * r;
  }

  lemma {:induction false} SquaresBound(rs: seq<real>)
    requires forall i :: 0 <= i < |rs| ==> -1020.0 <= rs[i] <= 1020.0
    ensures SumOfSquares(rs) <= |rs| as real * (1020.0 * 1020.0)
  {
    if rs != [] {
      SquaresBound(rs[..|rs| - 1]);
      SquareBound(rs[|rs| - 1], 1020.0);
    }
  }

  lemma DeviationsAtMostSquares(n: real, s: real, q: real, m: real, d: real)
    requires 0.0 < n && m * n == s && d == q - 2.0 * m * s + n * (m * m)
    ensures d <= q
  {
    assert m * s == n * (m * m);
    assert m * m >= 0.0;
    RealProduct(n, m * m);
  }

  lemma NonPositive(a: real, b: real)
    requires a * b <= 0.0 && 0.0 < b
    ensures a <= 0.0
  {
    if a > 0.0 {
      PositiveProduct(a, b, a * b);
    }
  }

  lemma FieldRange(img: Image, x: int, y: int)
    ensures 0.0 <= GrayField(img)(x, y) <= 255.0
  {
    LumaRange(img.at(x + img.bounds.minX, y + img.bounds.minY));
  }

  lemma LaplacianBound(img: Image, x: int, y: int)
    ensures -1020.0 <= Laplacian(GrayField(img), x, y) <= 1020.0
  {
    FieldRange(img, x, y - 1);
    FieldRange(img, x - 1, y);
    FieldRange(img, x, y);
    FieldRange(img, x + 1, y);
    FieldRange(img, x, y + 1);
  }

  lemma ResponsesBound(img: Image, w: nat, h: nat, i: int)
    requires (w - 2) * (h - 2) >= 0 && 0 <= i < |Responses(GrayField(img), w, h)|
    ensures -1020.0 <= Responses(GrayField(img), w, h)[i] <= 1020.0
  {
    if 2 < w && 2 < h {
      LaplacianBound(img, 1 + i % (w - 2), 1 + i / (w - 2));
    }
  }

  lemma SpreadBound(rs: seq<real>, n: real, s: real, q: real, v: real)
    requires rs != [] && n == |rs| as real && s == Sum(rs) && q == SumOfSquares(rs) && v == Variance(rs)
    requires forall i :: 0 <= i < |rs| ==> -1020.0 <= rs[i] <= 1020.0
    ensures v <= 1020.0 * 1020.0
  {
    var m, d := MeanAndVariance(rs, n, s, v);
    DeviationsNamed(rs, n, s, q, m, d);
    DeviationsAtMostSquares(n, s, q, m, d);
    SquaresBound(rs);
    assert (v - 1020.0 * 1020.0) * n <= 0.0;
    NonPositive(v - 1020.0 * 1020.0, n);
  }

  /** The score never exceeds 1020. */
  lemma ScoreBound(img: Image)
    requires Measurable(img.bounds)
    ensures Measure(img).RootOf? ==> Measure(img).square <= 1020.0 * 1020.0
  {
    var w, h := img.bounds.Dx(), img.bounds.Dy();
    var rs := Responses(GrayField(img), w, h);
    if rs != [] {
      forall i | 0 <= i < |rs|
        ensures -1020.0 <= rs[i] <= 1020.0
      {
        ResponsesBound(img, w, h, i);
      }
      SpreadBound(rs, |rs| as real, Sum(rs), SumOfSquares(rs), Variance(rs));
    }
  }

  // ---------- the verdict ----------

  /** The comparison score < threshold on a non-negative threshold; 0/0 compares false. */
  predicate Below(score: Score, threshold: real) {
    match score
    case Exactly(value) => value < threshold
    case RootOf(square) => square < threshold * threshold
    case NotANumber => false
  }

  lemma Squares(a: real, b: real, p: real, q: real)
    requires 0.0 <= a && 0.0 <= b && p == a * a && q == b * b
    ensures p < q <==> a < b
  {
    if a < b {
      PositiveProduct(b - a, b + a, (b - a) * (b + a));
      assert (b - a) * (b + a) == q - p;
    } else {
      RealProduct(a - b, a + b);
      assert (a - b) * (a + b) == p - q;
    }
  }

  /** The comparison is one of scores: a spread of score * score is below the threshold
      exactly if the score is. */
  lemma BelowComparesScores(img: Image, score: real, threshold: real)
    requires Measurable(img.bounds) && 0.0 <= score && 0.0 < threshold && Measure(img) == RootOf(score * score)
    ensures Below(Measure(img), threshold) <==> score < threshold
  {
    Squares(score, threshold, score * score, threshold * threshold);
  }

  /** Sizes that cannot be measured have one side below two and the other above. */
  lemma UnmeasurableSizes(b: Rect)
    requires 0 <= b.Dx() && 0 <= b.Dy()
    ensures !Measurable(b) <==> (b.Dx() < 2 < b.Dy()) || (b.Dy() < 2 < b.Dx())
  {
  }

  lemma NoResponses(w: nat, h: nat)
    requires (w - 2) * (h - 2) >= 0
    ensures (w - 2) * (h - 2) == 0 <==> w == 2 || h == 2
  {
  }

  /** There is no response to average over exactly when one side is two pixels. */
  lemma UnscoredIffSideOfTwo(img: Image)
    requires Measurable(img.bounds)
    ensures Measure(img).NotANumber? <==> img.bounds.Dx() == 2 || img.bounds.Dy() == 2
  {
    NoResponses(img.bounds.Dx(), img.bounds.Dy());
  }

  /** An image passes the blur filter at every threshold exactly when one of its sides is
      two pixels, however blurred it is. */
  lemma PassesAlwaysIffSideOfTwo(img: Image)
    requires Measurable(img.bounds)
    ensures (forall threshold :: 0.0 < threshold ==> !Below(Measure(img), threshold)) <==>
            img.bounds.Dx() == 2 || img.bounds.Dy() == 2
  {
    UnscoredIffSideOfTwo(img);
    if !Measure(img).NotANumber? {
      ScoreBound(img);
      assert Below(Measure(img), 1021.0);
    }
  }

  /** The gray levels of the image are an affine function of the position. */
  ghost predicate IsGradient(img: Image, a: real, b: real, c: real) {
    forall x, y :: 0 <= x < img.bounds.Dx() && 0 <= y < img.bounds.Dy() ==>
      GrayField(img)(x, y) == Plane(a, b, c, x, y)
  }

  lemma GradientMeasuresZero(img: Image, a: real, b: real, c: real)
    requires Measurable(img.bounds) && img.bounds.Dx() != 2 && img.bounds.Dy() != 2 && IsGradient(img, a, b, c)
    ensures Measure(img) == RootOf(0.0)
  {
    var w, h := img.bounds.Dx(), img.bounds.Dy();
    NoResponses(w, h);
    GradientScoresZero(GrayField(img), w, h, a, b, c);
  }

  lemma ZeroIsBelow(threshold: real)
    requires 0.0 < threshold
    ensures Below(RootOf(0.0), threshold)
  {
    PositiveProduct(threshold, threshold, threshold * threshold);
  }

  /** An image that is a pure gradient has no detail: it is dropped at every threshold. */
  lemma GradientsAreDropped(img: Image, a: real, b: real, c: real, threshold: real)
    requires Measurable(img.bounds) && img.bounds.Dx() != 2 && img.bounds.Dy() != 2 && IsGradient(img, a, b, c)
    requires 0.0 < threshold
    ensures Below(Measure(img), threshold)
  {
    GradientMeasuresZero(img, a, b, c);
    ZeroIsBelow(threshold);
  }

  function Black(w: nat, h: nat): Image {
    Image(Rect(0, 0, w, h), (x, y) => Rgb(0, 0, 0))
  }

  /** A black strip two pixels wide passes, a black image of the usual kind does not. */
  lemma BlackStripPasses(h: nat, w: nat, threshold: real)
    requires 0.0 < threshold && 2 < w && 2 < h
    ensures Measurable(Black(2, h).bounds) && !Below(Measure(Black(2, h)), threshold)
    ensures Measurable(Black(w, h).bounds) && Below(Measure(Black(w, h)), threshold)
  {
    UnscoredIffSideOfTwo(Black(2, h));
    ProductMonotone(0, w - 2, h - 2);
    forall x, y
      ensures GrayField(Black(w, h))(x, y) == Plane(0.0, 0.0, 0.0, x, y)
    {
      assert GrayField(Black(w, h))(x, y) == Luma(Rgb(0, 0, 0)) == 0.0;
    }
    GradientsAreDropped(Black(w, h), 0.0, 0.0, 0.0, threshold);
  }

  // ---------- what is measured ----------

  /** The weights of the channels. */
  lemma LumaWeights(c: Rgb)
    ensures 1000.0 * Luma(c) == (299 * c.r + 587 * c.g + 114 * c.b) as real
  {
  }

  lemma ResponseIndex(w: int, h: int, x: int, y: int, i: int)
    requires 1 <= x < w - 1 && 1 <= y < h - 1 && i == (y - 1) * (w - 2) + (x - 1)
    ensures 0 <= i < (w - 2) * (h - 2) && i % (w - 2) == x - 1 && i / (w - 2) == y - 1
  {
    FlatInside(w - 2, h - 2, x - 1, y - 1);
    Flat(w - 2, i, x - 1, y - 1);
  }

  /** The response filed for an interior point is its Laplacian. */
  lemma ResponseAt(g: (int, int) -> real, w: nat, h: nat, x: int, y: int, i: int)
    requires 1 <= x < w - 1 && 1 <= y < h - 1 && i == (y - 1) * (w - 2) + (x - 1)
    ensures 0 <= i < (w - 2) * (h - 2) && Responses(g, w, h)[i] == Laplacian(g, x, y)
  {
    ResponseIndex(w, h, x, y, i);
  }

  /** The Laplacian compares the gray level of a pixel with its four neighbours. */
  lemma LaplacianOfPixels(img: Image, x: int, y: int)
    ensures var col, row := img.bounds.minX + x, img.bounds.minY + y;
      Laplacian(GrayField(img), x, y) ==
      Luma(img.at(col, row - 1)) + Luma(img.at(col - 1, row)) + Luma(img.at(col + 1, row)) +
      Luma(img.at(col, row + 1)) - 4.0 * Luma(img.at(col, row))
  {
  }

  lemma SumsSnoc(rs: seq<real>, r: real, m: real)
    ensures Sum(rs + [r]) == Sum(rs) + r && Deviations(rs + [r], m) == Deviations(rs, m) + (r - m) * (r - m)
  {
    assert (rs + [r])[..|rs|] == rs;
  }

  /** The spread of two responses. */
  lemma PairSpread(a: real, b: real)
    ensures 4.0 * Variance([a, b]) == (a - b) * (a - b)
  {
    var m := (a + b) / 2.0;
    SumsSnoc([], a, m);
    SumsSnoc([a], b, m);
    assert [] + [a] == [a] && [a] + [b] == [a, b];
    assert (a - m) * (a - m) == (a - b) * (a - b) / 4.0 && (b - m) * (b - m) == (a - b) * (a - b) / 4.0;
  }

  /** A black image of four by three pixels with a gray spot at (1, 1) has two responses. */
  lemma SpotResponses(img: Image, level: real)
    requires img.bounds.Dx() == 4 && img.bounds.Dy() == 3
    requires forall x, y :: 0 <= x < 4 && 0 <= y < 3 ==>
               GrayField(img)(x, y) == if x == 1 && y == 1 then level else 0.0
    ensures Responses(GrayField(img), 4, 3) == [-4.0 * level, level]
  {
    var g := GrayField(img);
    ResponseIndex(4, 3, 1, 1, 0);
    ResponseIndex(4, 3, 2, 1, 1);
    assert Laplacian(g, 1, 1) == -4.0 * level && Laplacian(g, 2, 1) == level;
  }

  /** At level 8 its score is 20: it is dropped at the default threshold and passes at 20. */
  lemma SpotScoresTwenty(img: Image)
    requires img.bounds.Dx() == 4 && img.bounds.Dy() == 3
    requires forall x, y :: 0 <= x < 4 && 0 <= y < 3 ==>
               GrayField(img)(x, y) == if x == 1 && y == 1 then 8.0 else 0.0
    ensures Measurable(img.bounds) && Measure(img) == RootOf(400.0)
    ensures Below(Measure(img), 100.0) && !Below(Measure(img), 20.0)
  {
    SpotResponses(img, 8.0);
    PairSpread(-32.0, 8.0);
  }

  function Spot(): Image {
    Image(Rect(0, 0, 4, 3), (x, y) => if x == 1 && y == 1 then Rgb(8, 8, 8) else Rgb(0, 0, 0))
  }

  lemma SpotIsASpot(x: int, y: int)
    ensures GrayField(Spot())(x, y) == if x == 1 && y == 1 then 8.0 else 0.0
  {
    LumaWeights(Spot().at(x, y));
  }

  // ---------- the filter object ----------

  class BlurFilter {
    const threshold: real

    constructor (threshold: real)
      ensures this.threshold > 0.0
      ensures this.threshold == if threshold <= 0.0 then 100.0 else threshold
    {
      this.threshold := if threshold <= 0.0 then 100.0 else threshold;
    }

    method Apply(frame: Image, meta: FrameMeta) returns (v: Verdict)
      requires Measurable(frame.bounds)
      ensures v == if Below(Measure(frame), threshold) then Drop else Pass(FilteredFrame(frame, meta, Measure(frame)))
      ensures Measure(frame).NotANumber? ==> v.Pass?
      ensures Measure(frame).RootOf? ==> (v.Drop? <==> Measure(frame).square < threshold * threshold)
    {
      var score := LaplacianVariance(frame);
      if Below(score, threshold) {
        return Drop;
      }
      return Pass(FilteredFrame(frame, meta, score));
    }
  }
}
