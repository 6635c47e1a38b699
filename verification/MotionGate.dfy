/** The motion gate: has a frame changed enough to be worth a detection run? */
module MotionGate {
  import opened Rectangles
  import opened Sets
  import opened Images

  const STEP := 4

  predicate OnGrid(lo: int, x: int) {
    lo <= x && (x - lo) % STEP == 0
  }

  lemma GridStep(lo: int, x: int)
    requires OnGrid(lo, x)
    ensures OnGrid(lo, x + STEP)
    ensures forall z :: OnGrid(lo, z) && z < x + STEP ==> z <= x
  {
  }

  /** The sampled points: every fourth column of every fourth row. */
  ghost function Samples(b: Rect): set<(int, int)> {
    set x, y | b.minX <= x < b.maxX && b.minY <= y < b.maxY &&
               OnGrid(b.minX, x) && OnGrid(b.minY, y) :: (x, y)
  }

  predicate Differs(prev: GrayImage, curr: GrayImage, x: int, y: int) {
    var diff := GrayAt(curr, x, y) as int - GrayAt(prev, x, y) as int;
    diff > 20 || -diff > 20
  }

  ghost function ChangedIn(prev: GrayImage, curr: GrayImage, points: set<(int, int)>): set<(int, int)> {
    set p | p in points && Differs(prev, curr, p.0, p.1)
  }

  /** More than one per cent of the samples differ by more than 20 levels. */
  ghost predicate Changed(prev: GrayImage, curr: GrayImage) {
    100 * |ChangedIn(prev, curr, Samples(prev.bounds))| > |Samples(prev.bounds)|
  }

  /** The samples the loops visit before reaching column x of row y. */
  ghost function Before(b: Rect, y: int, x: int): set<(int, int)> {
    set p | p in Samples(b) && (p.1 < y || (p.1 == y && p.0 < x))
  }

  lemma VisitSample(prev: GrayImage, curr: GrayImage, x: int, y: int)
    requires Inside(prev.bounds, x, y) && OnGrid(prev.bounds.minX, x) && OnGrid(prev.bounds.minY, y)
    ensures var b := prev.bounds;
      && |Before(b, y, x + STEP)| == |Before(b, y, x)| + 1
      && |ChangedIn(prev, curr, Before(b, y, x + STEP))| ==
         |ChangedIn(prev, curr, Before(b, y, x))| + (if Differs(prev, curr, x, y) then 1 else 0)
  {
    var b := prev.bounds;
    var earlier := Before(b, y, x);
    GridStep(b.minX, x);
    assert (x, y) in Samples(b);
    assert Before(b, y, x + STEP) == earlier + {(x, y)};
    var more := ChangedIn(prev, curr, earlier + {(x, y)});
    assert more == ChangedIn(prev, curr, earlier) + if Differs(prev, curr, x, y) then {(x, y)} else {};
  }

  lemma RowDone(b: Rect, y: int, x: int)
    requires b.maxX <= x && OnGrid(b.minY, y)
    ensures Before(b, y, x) == Before(b, y + STEP, b.minX)
  {
    GridStep(b.minY, y);
  }

  lemma AllDone(b: Rect, y: int)
    requires b.maxY <= y
    ensures Before(b, y, b.minX) == Samples(b)
  {
  }

  lemma Percentage(changed: real, total: real)
    requires total > 0.0
    ensures changed / total > 0.01 <==> 100.0 * changed > total
  {
    assert changed / total * total == changed;
  }

  lemma OnePercent(changed: nat, total: nat)
    requires total > 0
    ensures changed as real / total as real > 0.01 <==> 100 * changed > total
  {
    Percentage(changed as real, total as real);
    assert 100.0 * changed as real == (100 * changed) as real;
  }

  /** The counting loops decide exactly the one-per-cent rule. */
  method FrameChanged(prev: GrayImage, curr: GrayImage) returns (moved: bool)
    ensures moved == Changed(prev, curr)
  {
    var bounds := prev.bounds;
    var changed, total := 0, 0;
    var y := bounds.minY;
    assert Before(bounds, y, bounds.minX) == {};
    while y < bounds.maxY
      invariant OnGrid(bounds.minY, y)
      invariant total == |Before(bounds, y, bounds.minX)|
      invariant changed == |ChangedIn(prev, curr, Before(bounds, y, bounds.minX))|
    {
      var x := bounds.minX;
      while x < bounds.maxX
        invariant OnGrid(bounds.minX, x)
        invariant total == |Before(bounds, y, x)|
        invariant changed == |ChangedIn(prev, curr, Before(bounds, y, x))|
      {
        var diff := GrayAt(curr, x, y) as int - GrayAt(prev, x, y) as int;
        if diff < 0 {
          diff := -diff;
        }
        VisitSample(prev, curr, x, y);
        GridStep(bounds.minX, x);
        if diff > 20 {
          changed := changed + 1;
        }
        total := total + 1;
        x := x + STEP;
      }
      RowDone(bounds, y, x);
      GridStep(bounds.minY, y);
      y := y + STEP;
    }
    AllDone(bounds, y);
    if total == 0 {
      assert ChangedIn(prev, curr, Samples(bounds)) == {};
      return false;
    }
    OnePercent(changed, total);
    return changed as real / total as real > 0.01;
  }

  // ---------- facts about the rule ----------

  function Steps(length: int): nat {
    if length <= 0 then 0 else (length + STEP - 1) / STEP
  }

  lemma GridIndex(lo: int, hi: int, x: int)
    requires OnGrid(lo, x) && x < hi
    ensures 0 <= (x - lo) / STEP < Steps(hi - lo) && lo + STEP * ((x - lo) / STEP) == x
  {
  }

  lemma GridPoint(lo: int, hi: int, i: int)
    requires 0 <= i < Steps(hi - lo)
    ensures OnGrid(lo, lo + STEP * i) && lo + STEP * i < hi
  {
  }

  /** The number of samples is the product of the rounded-up quarter sides. */
  lemma SampleCount(b: Rect)
    ensures |Samples(b)| == Steps(b.Dx()) * Steps(b.Dy())
  {
    var grid := Rect(0, 0, Steps(b.Dx()), Steps(b.Dy()));
    var f := (p: (int, int)) => (b.minX + STEP * p.0, b.minY + STEP * p.1);
    var image := ImageOf(Pixels(grid), f);
    GridSize(grid);
    ImageSize(Pixels(grid), f);
    forall p | p in Samples(b)
      ensures p in image
    {
      GridIndex(b.minX, b.maxX, p.0);
      GridIndex(b.minY, b.maxY, p.1);
      var i := ((p.0 - b.minX) / STEP, (p.1 - b.minY) / STEP);
      assert i in Pixels(grid) && f(i) == p;
    }
    forall i | i in Pixels(grid)
      ensures f(i) in Samples(b)
    {
      GridPoint(b.minX, b.maxX, i.0);
      GridPoint(b.minY, b.maxY, i.1);
    }
    assert image == Samples(b);
  }

  lemma GridSize(grid: Rect)
    requires grid.minX == grid.minY == 0 <= grid.maxX && 0 <= grid.maxY
    ensures |Pixels(grid)| == grid.maxX * grid.maxY
  {
    AreaCountsPixels(grid);
  }

  lemma UnchangedWhenEqual(prev: GrayImage, curr: GrayImage)
    requires forall p :: p in Samples(prev.bounds) ==> GrayAt(prev, p.0, p.1) == GrayAt(curr, p.0, p.1)
    ensures !Changed(prev, curr)
  {
    assert ChangedIn(prev, curr, Samples(prev.bounds)) == {};
  }

  lemma ChangedIsSymmetric(prev: GrayImage, curr: GrayImage)
    requires prev.bounds == curr.bounds
    ensures Changed(prev, curr) == Changed(curr, prev)
  {
    var s := Samples(prev.bounds);
    assert ChangedIn(prev, curr, s) == ChangedIn(curr, prev, s);
  }

  /** The rule on pixels: `moved` are the pixels in every fourth column of every fourth row
      whose level differs by more than 20, where the current frame reads as 0 outside its
      bounds. */
  lemma ChangedExactly(prev: GrayImage, curr: GrayImage, moved: set<(int, int)>)
    requires !prev.bounds.Empty()
    requires forall x, y :: (x, y) in moved <==>
               && Inside(prev.bounds, x, y) && (x - prev.bounds.minX) % 4 == 0 && (y - prev.bounds.minY) % 4 == 0
               && var was, now := prev.at(x, y) as int, if Inside(curr.bounds, x, y) then curr.at(x, y) as int else 0;
                  now - was > 20 || was - now > 20
    ensures Changed(prev, curr) <==> 100 * |moved| > ((prev.bounds.Dx() + 3) / 4) * ((prev.bounds.Dy() + 3) / 4)
  {
    var changed := ChangedIn(prev, curr, Samples(prev.bounds));
    forall p | p in changed || p in moved
      ensures p in changed && p in moved
    {
      var x, y := p.0, p.1;
      assert p == (x, y);
      assert (x, y) in Samples(prev.bounds) <==> Inside(prev.bounds, x, y) &&
                                                 OnGrid(prev.bounds.minX, x) && OnGrid(prev.bounds.minY, y);
      assert (x, y) in moved <==> (x, y) in changed;
    }
    assert changed == moved;
    SampleCount(prev.bounds);
  }

  /** A frame in which every level differs by d counts as changed exactly if d exceeds 20. */
  lemma UniformChange(prev: GrayImage, curr: GrayImage, d: nat)
    requires prev.bounds == curr.bounds && !prev.bounds.Empty()
    requires forall x, y :: Inside(prev.bounds, x, y) ==>
               curr.at(x, y) == prev.at(x, y) + d || prev.at(x, y) == curr.at(x, y) + d
    ensures Changed(prev, curr) <==> d > 20
  {
    var b := prev.bounds;
    var samples := Samples(b);
    assert (b.minX, b.minY) in samples;
    if d > 20 {
      assert ChangedIn(prev, curr, samples) == samples;
    } else {
      assert ChangedIn(prev, curr, samples) == {};
    }
  }
}
