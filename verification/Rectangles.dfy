/** Integer rectangles and their overlap score.

    A rectangle is half-open, as in Go's image package: it covers the pixels
    (x, y) with minX <= x < maxX and minY <= y < maxY. The module shows that the
    overlap score computed from corner arithmetic is the Jaccard index of the
    two pixel sets, and that one minus the score obeys the triangle inequality.
 */
module Rectangles {
  import opened Sets

  datatype Rect = Rect(minX: int, minY: int, maxX: int, maxY: int) {

    predicate Empty() {
      minX >= maxX || minY >= maxY
    }

    function Dx(): int {
      maxX - minX
    }

    function Dy(): int {
      maxY - minY
    }

    function Intersect(that: Rect): Rect {
      var r := Rect(
        if minX < that.minX then that.minX else minX,
        if minY < that.minY then that.minY else minY,
        if maxX > that.maxX then that.maxX else maxX,
        if maxY > that.maxY then that.maxY else maxY);
      if r.Empty() then Rect(0, 0, 0, 0) else r
    }
  }

  function Area(r: Rect): int {
    if r.Empty() then 0 else r.Dx() * r.Dy()
  }

  function Iou(a: Rect, b: Rect): real {
    var intersection := a.Intersect(b);
    if intersection.Empty() then 0.0
    else
      var interArea := Area(intersection);
      var unionArea := Area(a) + Area(b) - interArea;
      if unionArea == 0 then 0.0 else interArea as real / unionArea as real
  }

  // ---------- the pixel-set meaning ----------

  ghost function Pixels(r: Rect): set<(int, int)> {
    set x, y | r.minX <= x < r.maxX && r.minY <= y < r.maxY :: (x, y)
  }

  /** The Jaccard index of two finite sets; 0 when both are empty. */
  ghost function Jaccard<T>(a: set<T>, b: set<T>): real {
    if a + b == {} then 0.0 else |a * b| as real / |a + b| as real
  }

  ghost function Column(x: int, lo: int, hi: int): set<(int, int)> {
    set y | lo <= y < hi :: (x, y)
  }

  lemma {:induction false} ColumnSize(x: int, lo: int, hi: int)
    requires lo <= hi
    ensures |Column(x, lo, hi)| == hi - lo
    decreases hi - lo
  {
    if lo == hi {
      assert Column(x, lo, hi) == {};
    } else {
      ColumnSize(x, lo, hi - 1);
      assert Column(x, lo, hi) == Column(x, lo, hi - 1) + {(x, hi - 1)};
    }
  }

  lemma LastColumn(r: Rect)
    requires !r.Empty()
    ensures |Pixels(r)| == |Pixels(r.(maxX := r.maxX - 1))| + r.Dy()
  {
    var narrower := Pixels(r.(maxX := r.maxX - 1));
    var last := Column(r.maxX - 1, r.minY, r.maxY);
    ColumnSize(r.maxX - 1, r.minY, r.maxY);
    assert Pixels(r) == narrower + last;
    assert narrower !! last;
  }

  /** Counting column by column gives the product of the sides. */
  lemma {:induction false} ColumnsCount(r: Rect, w: nat)
    requires r.minY <= r.maxY && r.Dx() == w
    ensures |Pixels(r)| == w * r.Dy()
    decreases w
  {
    if w == 0 || r.minY == r.maxY {
      assert Pixels(r) == {};
    } else {
      LastColumn(r);
      ColumnsCount(r.(maxX := r.maxX - 1), w - 1);
    }
  }

  /** The corner arithmetic of `Area` counts the covered pixels. */
  lemma AreaCountsPixels(r: Rect)
    ensures |Pixels(r)| == Area(r)
  {
    if r.Empty() {
      assert Pixels(r) == {};
    } else {
      ColumnsCount(r, r.Dx());
    }
  }

  lemma IntersectIsIntersection(a: Rect, b: Rect)
    ensures Pixels(a.Intersect(b)) == Pixels(a) * Pixels(b)
  {
  }

  lemma AreasCountOverlap(a: Rect, b: Rect)
    ensures Area(a.Intersect(b)) == |Pixels(a) * Pixels(b)|
    ensures Area(a) + Area(b) - Area(a.Intersect(b)) == |Pixels(a) + Pixels(b)|
  {
    AreaCountsPixels(a);
    AreaCountsPixels(b);
    AreaCountsPixels(a.Intersect(b));
    IntersectIsIntersection(a, b);
    UnionSize(Pixels(a), Pixels(b));
  }

  /** The score is the Jaccard index of the pixel sets, and the guard against a
      zero union never fires once the intersection is non-empty. */
  lemma IouIsJaccard(a: Rect, b: Rect)
    ensures Iou(a, b) == Jaccard(Pixels(a), Pixels(b))
    ensures !a.Intersect(b).Empty() ==> Area(a) + Area(b) - Area(a.Intersect(b)) > 0
  {
    var i := a.Intersect(b);
    var p, q := Pixels(a), Pixels(b);
    AreasCountOverlap(a, b);
    IntersectIsIntersection(a, b);
    if i.Empty() {
      assert p * q == {};
    } else {
      assert (i.minX, i.minY) in p * q;
      assert p + q != {};
    }
  }

  // ---------- 1 - Iou is a metric ----------

  lemma CrossMultiply(a: real, b: real, c: real, d: real)
    requires 0.0 < b && 0.0 < d && a * d <= c * b
    ensures a / b <= c / d
  {
    var p, q := a / b, c / d;
    assert p * b == a && q * d == c;
    assert (p - q) * (b * d) <= 0.0;
  }

  /** t / (k + t) grows with t. */
  lemma RatioGrows(k: real, s: real, t: real)
    requires 0.0 <= k && 0.0 <= s <= t && 0.0 < k + s
    ensures s / (k + s) <= t / (k + t)
  {
    assert s * k <= t * k;
    CrossMultiply(s, k + s, t, k + t);
  }

  /** A larger divisor gives a smaller quotient. */
  lemma RatioShrinks(s: real, k: real, l: real)
    requires 0.0 <= s && 0.0 < k <= l
    ensures s / l <= s / k
  {
    CrossMultiply(s, l, s, k);
  }

  /** The arithmetic core: set sizes x, y, z with pairwise overlaps p, q, r. The
      distance 1 - p/(x+y-p) is d/(x+y+d) * 2 with d = x+y-2p, and d is itself a
      distance; growing the numerator and then shrinking the divisors gives the
      triangle inequality. */
  lemma JaccardArithmetic(x: real, y: real, z: real, p: real, q: real, r: real)
    requires 0.0 <= p <= x && p <= y && 0.0 <= q <= y && q <= z && 0.0 <= r <= x && r <= z
    requires 0.0 < x && 0.0 < y && 0.0 < z
    requires p + q <= y + r
    ensures p / (x + y - p) + q / (y + z - q) <= 1.0 + r / (x + z - r)
  {
    var ab, bc, ac := x + y - 2.0 * p, y + z - 2.0 * q, x + z - 2.0 * r;
    var all := x + z + (ab + bc);
    RatioGrows(x + z, ac, ab + bc);
    RatioShrinks(ab, x + y + ab, all);
    RatioShrinks(bc, y + z + bc, all);
    RatioOfSum(ab, bc, all);
    HalfDistance(x, y, p);
    HalfDistance(y, z, q);
    HalfDistance(x, z, r);
  }

  lemma RatioOfSum(s: real, t: real, d: real)
    requires d != 0.0
    ensures (s + t) / d == s / d + t / d
  {
  }

  lemma QuotientUnique(n: real, d: real, q: real)
    requires d != 0.0 && q * d == n
    ensures n / d == q
  {
  }

  lemma HalfDistance(x: real, y: real, p: real)
    requires 0.0 <= p <= x && p <= y && 0.0 < x && 0.0 < y
    ensures p / (x + y - p) == 1.0 - 2.0 * ((x + y - 2.0 * p) / (x + y + (x + y - 2.0 * p)))
  {
    var u, d := x + y - p, x + y - 2.0 * p;
    var f := d / (2.0 * u);
    assert x + y + d == 2.0 * u;
    assert f * (2.0 * u) == d;
    QuotientUnique(p, u, 1.0 - 2.0 * f);
  }

  lemma JaccardTriangle<T>(a: set<T>, b: set<T>, c: set<T>)
    requires a != {} && b != {} && c != {}
    ensures Jaccard(a, b) + Jaccard(b, c) <= 1.0 + Jaccard(a, c)
  {
    UnionSize(a, b);
    UnionSize(b, c);
    UnionSize(a, c);
    SubsetSize(a * b, a);
    SubsetSize(a * b, b);
    SubsetSize(b * c, b);
    SubsetSize(b * c, c);
    SubsetSize(a * c, a);
    SubsetSize(a * c, c);
    UnionSize(a * b, b * c);
    SubsetSize(a * b + b * c, b);
    SubsetSize((a * b) * (b * c), a * c);
    JaccardArithmetic(|a| as real, |b| as real, |c| as real,
                      |a * b| as real, |b * c| as real, |a * c| as real);
  }

  lemma EmptyScoresZero(a: Rect, b: Rect)
    requires a.Empty() || b.Empty()
    ensures Iou(a, b) == 0.0 && Iou(b, a) == 0.0
  {
  }

  lemma IouSymmetric(a: Rect, b: Rect)
    ensures Iou(a, b) == Iou(b, a)
  {
    assert a.Intersect(b) == b.Intersect(a);
  }

  lemma JaccardInUnitInterval<T>(a: set<T>, b: set<T>)
    ensures 0.0 <= Jaccard(a, b) <= 1.0
  {
    SubsetSize(a * b, a + b);
    if a + b != {} {
      CrossMultiply(|a * b| as real, |a + b| as real, 1.0, 1.0);
    }
  }

  lemma IouInUnitInterval(a: Rect, b: Rect)
    ensures 0.0 <= Iou(a, b) <= 1.0
  {
    var p, q := Pixels(a), Pixels(b);
    IouIsJaccard(a, b);
    JaccardInUnitInterval(p, q);
  }

  lemma JaccardOneIffSame<T>(a: set<T>, b: set<T>)
    requires a != {} || b != {}
    ensures Jaccard(a, b) == 1.0 <==> a == b
  {
    var i, u := a * b, a + b;
    assert u != {};
    assert u == i + (u - i) && i * (u - i) == {};
    assert |u| == |i| + |u - i|;
    if Jaccard(a, b) == 1.0 {
      QuotientOne(|i| as real, |u| as real);
      assert u - i == {};
      assert forall p :: p in u ==> p in i;
    }
    if a == b {
      assert i == u;
    }
  }

  lemma QuotientOne(n: real, d: real)
    requires d != 0.0
    ensures n / d == 1.0 <==> n == d
  {
  }

  lemma SamePixelsSameRect(a: Rect, b: Rect)
    requires !a.Empty() && !b.Empty() && Pixels(a) == Pixels(b)
    ensures a == b
  {
    assert (a.minX, a.minY) in Pixels(a) && (a.maxX - 1, a.maxY - 1) in Pixels(a);
    assert (b.minX, b.minY) in Pixels(b) && (b.maxX - 1, b.maxY - 1) in Pixels(b);
  }

  /** Score 1 is reached exactly by a non-empty rectangle and itself. */
  lemma IouOneIffSame(a: Rect, b: Rect)
    ensures Iou(a, b) == 1.0 <==> a == b && !a.Empty()
  {
    if a.Empty() || b.Empty() {
      EmptyScoresZero(a, b);
    } else {
      var p, q := Pixels(a), Pixels(b);
      assert (a.minX, a.minY) in p;
      IouIsJaccard(a, b);
      JaccardOneIffSame(p, q);
      if p == q {
        SamePixelsSameRect(a, b);
      }
    }
  }

  /** Triangle inequality of the distance 1 - Iou, for all rectangles. */
  lemma IouTriangle(a: Rect, b: Rect, c: Rect)
    ensures Iou(a, c) >= Iou(a, b) + Iou(b, c) - 1.0
  {
    IouInUnitInterval(a, b);
    IouInUnitInterval(b, c);
    IouInUnitInterval(a, c);
    if a.Empty() || b.Empty() || c.Empty() {
      if a.Empty() { EmptyScoresZero(a, b); }
      if b.Empty() { EmptyScoresZero(b, c); }
      if c.Empty() { EmptyScoresZero(b, c); }
    } else {
      assert (a.minX, a.minY) in Pixels(a);
      assert (b.minX, b.minY) in Pixels(b);
      assert (c.minX, c.minY) in Pixels(c);
      IouIsJaccard(a, b);
      IouIsJaccard(b, c);
      IouIsJaccard(a, c);
      JaccardTriangle(Pixels(a), Pixels(b), Pixels(c));
    }
  }

  // ---------- machine integers ----------

  const INT64_LIMIT := 0x8000_0000_0000_0000

  predicate FitsInt64(n: int) {
    -INT64_LIMIT <= n < INT64_LIMIT
  }

  predicate Within(r: Rect, bound: int) {
    -bound <= r.minX <= bound && -bound <= r.minY <= bound &&
    -bound <= r.maxX <= bound && -bound <= r.maxY <= bound
  }

  /** With coordinates of magnitude below 2^30, no intermediate value of the
      score leaves the 64-bit range, so unbounded integers model it exactly. */
  lemma ScoreFitsInt64(a: Rect, b: Rect)
    requires Within(a, 0x3FFF_FFFF) && Within(b, 0x3FFF_FFFF)
    ensures FitsInt64(a.Dx()) && FitsInt64(a.Dy())
    ensures FitsInt64(Area(a)) && FitsInt64(Area(a) + Area(b))
    ensures FitsInt64(Area(a) + Area(b) - Area(a.Intersect(b)))
  {
    AreaBound(a);
    AreaBound(b);
    var i := a.Intersect(b);
    assert Within(i, 0x3FFF_FFFF);
    AreaBound(i);
  }

  lemma AreaBound(a: Rect)
    requires Within(a, 0x3FFF_FFFF)
    ensures 0 <= Area(a) < 0x4000_0000_0000_0000
  {
    if !a.Empty() {
      ProductMonotone(a.Dx(), 0x7FFF_FFFF, a.Dy());
    }
  }

  lemma ProductMonotone(v: int, w: int, h: int)
    requires 0 <= v <= w && 0 <= h
    ensures 0 <= v * h <= w * h
  {
  }
}
