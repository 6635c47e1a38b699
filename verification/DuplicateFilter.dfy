/** The duplicate filter: a difference hash and the last hash that passed. */
module DuplicateFilters {
  import opened Rectangles
  import opened Images
  import opened Bits
  import opened DuplicateRuns
  import opened Filters

  const WIDTH := 9
  const HEIGHT := 8

  /** Go's integer division truncates toward zero. */
  function Quotient(a: int, b: int): int
    requires b > 0
  {
    if a >= 0 then a / b else -(-a / b)
  }

  function SampleX(b: Rect, x: int): int {
    b.minX + Quotient(x * b.Dx(), WIDTH)
  }

  function SampleY(b: Rect, y: int): int {
    b.minY + Quotient(y * b.Dy(), HEIGHT)
  }

  function Uint32(n: int): int {
    n % 0x1_0000_0000
  }

  /** A channel as the colour interface reports it: 8 bits spread over 16. */
  function Wide(channel: Byte): int {
    channel * 257
  }

  function Gray(c: Rgb): int {
    Uint32(Uint32(Uint32(Wide(c.r) * 299) + Uint32(Wide(c.g) * 587)) + Uint32(Wide(c.b) * 114)) / 1000
  }

  /** The comparison behind one bit: the sample at (x, y) outshines its right neighbour. */
  function Brighter(img: Image, x: int, y: int): bool {
    var b := img.bounds;
    Gray(img.at(SampleX(b, x), SampleY(b, y))) > Gray(img.at(SampleX(b, x + 1), SampleY(b, y)))
  }

  /** The 64 comparisons row by row. */
  function Comparisons(img: Image): (bits: seq<bool>)
    ensures |bits| == Size()
  {
    seq(Size(), k => Brighter(img, k % 8, k / 8))
  }

  lemma ComparisonAt(img: Image, x: nat, y: nat, k: nat)
    requires x < 8 && y < 8 && k == 8 * y + x
    ensures Comparisons(img)[k] == Brighter(img, x, y)
  {
    assert k % 8 == x && k / 8 == y;
  }

  function Hash(img: Image): Uint64 {
    PackedFits(Comparisons(img));
    Packed(Comparisons(img))
  }

  /** One comparison of the loop. */
  method Compare(img: Image, x: nat, y: nat) returns (brighter: bool)
    requires x < 8 && y < 8
    ensures brighter == Comparisons(img)[8 * y + x]
  {
    var bounds := img.bounds;
    var srcX1 := bounds.minX + Quotient(x * bounds.Dx(), WIDTH);
    var srcX2 := bounds.minX + Quotient((x + 1) * bounds.Dx(), WIDTH);
    var srcY := bounds.minY + Quotient(y * bounds.Dy(), HEIGHT);
    var gray1 := Gray(img.at(srcX1, srcY));
    var gray2 := Gray(img.at(srcX2, srcY));
    ComparisonAt(img, x, y, 8 * y + x);
    brighter := gray1 > gray2;
  }

  /** The nested loops compute the packed comparisons. */
  method DHash(img: Image) returns (hash: Uint64)
    ensures hash == Hash(img)
  {
    ghost var bits := Comparisons(img);
    hash := 0;
    for y := 0 to HEIGHT
      invariant hash == Packed(bits[..8 * y])
    {
      for x := 0 to WIDTH - 1
        invariant hash == Packed(bits[..8 * y + x])
      {
        ShiftIn(bits, 8 * y + x);
        var brighter := Compare(img, x, y);
        hash := ShiftLeft(hash);
        if brighter {
          hash := OrOne(hash);
        }
      }
    }
    assert bits[..64] == bits;
  }

  // ---------- what the hash means ----------

  /** Bit 63 - (8y + x) is the comparison at column x of row y. */
  lemma HashBit(img: Image, x: nat, y: nat, k: nat)
    requires x < 8 && y < 8 && k == 8 * y + x
    ensures Bit(Hash(img), 63 - k) == Brighter(img, x, y)
  {
    var bits := Comparisons(img);
    ComparisonAt(img, x, y, k);
    PackedBit(bits, k);
    assert |bits| - 1 - k == 63 - k;
  }

  /** Two images have one hash exactly when all 64 comparisons agree. */
  lemma HashDetermined(a: Image, b: Image)
    ensures Hash(a) == Hash(b) <==> Comparisons(a) == Comparisons(b)
  {
    if Hash(a) == Hash(b) {
      PackedSame(Comparisons(a), Comparisons(b));
    }
  }

  /** No sum of the gray conversion leaves 32 bits. */
  lemma GrayExact(c: Rgb)
    ensures Gray(c) == (Wide(c.r) * 299 + Wide(c.g) * 587 + Wide(c.b) * 114) / 1000
  {
    var r, g, b := Wide(c.r) * 299, Wide(c.g) * 587, Wide(c.b) * 114;
    Uint32Exact(r);
    Uint32Exact(g);
    Uint32Exact(b);
    Uint32Exact(r + g);
    Uint32Exact(r + g + b);
  }

  lemma Uint32Exact(n: int)
    requires 0 <= n < 0x1_0000_0000
    ensures Uint32(n) == n
  {
  }

  lemma ScaledInside(i: int, parts: int, length: int)
    requires 0 <= i < parts && 0 < length
    ensures 0 <= Quotient(i * length, parts) < length
  {
    ProductMonotone(i, parts - 1, length);
    assert (parts - 1) * length == parts * length - length;
    assert i * length < parts * length;
    QuotientBelow(i * length, parts, length);
  }

  lemma QuotientBelow(a: int, b: int, q: int)
    requires 0 <= a < b * q && 0 < b
    ensures 0 <= a / b < q
  {
    assert b * (a / b) <= a;
    if a / b >= q {
      ProductMonotone(q, a / b, b);
    }
  }

  /** Every sample of a non-empty image lies inside it. */
  lemma SamplesInside(b: Rect, x: int, y: int)
    requires !b.Empty() && 0 <= x <= 8 && 0 <= y < 8
    ensures Inside(b, SampleX(b, x), SampleY(b, y))
  {
    ScaledInside(x, WIDTH, b.Dx());
    ScaledInside(y, HEIGHT, b.Dy());
  }

  lemma NinthIs(a: int, q: int)
    requires 0 <= a && 9 * q <= a < 9 * q + 9
    ensures Quotient(a, WIDTH) == q
  {
  }

  lemma EighthIs(a: int, q: int)
    requires 0 <= a && 8 * q <= a < 8 * q + 8
    ensures Quotient(a, HEIGHT) == q
  {
  }

  /** The gray level in the comparison, without machine arithmetic. */
  function Level(c: Rgb): int {
    257 * (299 * c.r + 587 * c.g + 114 * c.b) / 1000
  }

  lemma GrayWeights(c: Rgb)
    ensures Gray(c) == Level(c) == 257 * (299 * c.r + 587 * c.g + 114 * c.b) / 1000
  {
    GrayExact(c);
  }

  lemma SampledColumn(b: Rect, x: nat, column: int)
    requires !b.Empty() && 9 * (column - b.minX) <= x * b.Dx() < 9 * (column - b.minX) + 9
    ensures SampleX(b, x) == column
  {
    ProductMonotone(0, x, b.Dx());
    NinthIs(x * b.Dx(), column - b.minX);
  }

  lemma SampledRow(b: Rect, y: nat, row: int)
    requires !b.Empty() && 8 * (row - b.minY) <= y * b.Dy() < 8 * (row - b.minY) + 8
    ensures SampleY(b, y) == row
  {
    ProductMonotone(0, y, b.Dy());
    EighthIs(y * b.Dy(), row - b.minY);
  }

  /** Where the comparison behind a bit is made, and between which levels: column and next
      column split the width into ninths, the row splits the height into eighths. */
  lemma HashBitAt(img: Image, x: nat, y: nat, column: int, next: int, row: int, k: nat)
    requires x < 8 && y < 8 && k == 8 * y + x && !img.bounds.Empty()
    requires var w, left := img.bounds.Dx(), img.bounds.minX;
      && 9 * (column - left) <= x * w < 9 * (column - left) + 9
      && 9 * (next - left) <= (x + 1) * w < 9 * (next - left) + 9
    requires var h, top := img.bounds.Dy(), img.bounds.minY;
      8 * (row - top) <= y * h < 8 * (row - top) + 8
    ensures Bit(Hash(img), 63 - k) <==> Level(img.at(column, row)) > Level(img.at(next, row))
  {
    SampledColumn(img.bounds, x, column);
    SampledColumn(img.bounds, x + 1, next);
    SampledRow(img.bounds, y, row);
    HashBit(img, x, y, k);
    GrayWeights(img.at(column, row));
    GrayWeights(img.at(next, row));
  }

  /** On an image of nine by eight pixels every pixel is compared with its right neighbour. */
  lemma NineByEight(img: Image, x: nat, y: nat, k: nat)
    requires x < 8 && y < 8 && k == 8 * y + x
    requires img.bounds.maxX == img.bounds.minX + 9 && img.bounds.maxY == img.bounds.minY + 8
    ensures var column, row := img.bounds.minX + x, img.bounds.minY + y;
      Bit(Hash(img), 63 - k) <==> Level(img.at(column, row)) > Level(img.at(column + 1, row))
  {
    var column, row := img.bounds.minX + x, img.bounds.minY + y;
    HashBitAt(img, x, y, column, column + 1, row, k);
  }

  /** Every row of the image falls, or rises, in gray level from column to column. */
  ghost predicate Falls(img: Image) {
    forall x, y :: 0 <= x < 8 && Inside(img.bounds, x, y) ==> Gray(img.at(x, y)) > Gray(img.at(x + 1, y))
  }

  ghost predicate Rises(img: Image) {
    forall x, y :: 0 <= x < 8 && Inside(img.bounds, x, y) ==> Gray(img.at(x, y)) < Gray(img.at(x + 1, y))
  }

  /** Neighbouring columns of an image nine columns wide are compared, in some row. */
  lemma NinthColumns(img: Image, x: nat, y: nat) returns (row: int)
    requires img.bounds.minX == 0 && img.bounds.maxX == 9 && !img.bounds.Empty() && x < 8 && y < 8
    ensures Inside(img.bounds, x, row)
    ensures Brighter(img, x, y) <==> Gray(img.at(x, row)) > Gray(img.at(x + 1, row))
  {
    row := SampleY(img.bounds, y);
    SamplesInside(img.bounds, x, y);
    SampledColumn(img.bounds, x, x);
    SampledColumn(img.bounds, x + 1, x + 1);
  }

  lemma FallsEverywhere(img: Image, k: nat)
    requires img.bounds.minX == 0 && img.bounds.maxX == 9 && !img.bounds.Empty() && Falls(img) && k < Size()
    ensures Comparisons(img)[k]
  {
    var row := NinthColumns(img, k % 8, k / 8);
  }

  lemma RisesEverywhere(img: Image, k: nat)
    requires img.bounds.minX == 0 && img.bounds.maxX == 9 && !img.bounds.Empty() && Rises(img) && k < Size()
    ensures !Comparisons(img)[k]
  {
    var row := NinthColumns(img, k % 8, k / 8);
  }

  /** On an image nine columns wide, falling levels hash to all ones and rising levels to
      zero, so the two are as far apart as hashes can be. */
  lemma FallingAndRising(falling: Image, rising: Image)
    requires falling.bounds.minX == 0 && falling.bounds.maxX == 9 && !falling.bounds.Empty() && Falls(falling)
    requires rising.bounds.minX == 0 && rising.bounds.maxX == 9 && !rising.bounds.Empty() && Rises(rising)
    ensures Hash(falling) == 0xFFFF_FFFF_FFFF_FFFF && Hash(rising) == 0
    ensures HammingDistance(Hash(rising), Hash(falling)) == 64
  {
    forall k | 0 <= k < Size()
      ensures Comparisons(falling)[k] && !Comparisons(rising)[k]
    {
      FallsEverywhere(falling, k);
      RisesEverywhere(rising, k);
    }
    UniformHash(falling);
    UniformHash(rising);
    OppositeWords();
  }

  lemma UniformHash(img: Image)
    ensures (forall k :: 0 <= k < Size() ==> Comparisons(img)[k]) ==> Hash(img) == WORD - 1
    ensures (forall k :: 0 <= k < Size() ==> !Comparisons(img)[k]) ==> Hash(img) == 0
  {
    PackedUniform(Comparisons(img));
    WordIsPow2();
  }

  /** `brighter` is `img` with one constant added to every channel, without clipping. */
  ghost predicate Shifted(img: Image, brighter: Image, c: int) {
    img.bounds == brighter.bounds &&
    forall x, y :: Inside(img.bounds, x, y) ==>
      var p, q := img.at(x, y), brighter.at(x, y);
      q.r == p.r + c && q.g == p.g + c && q.b == p.b + c
  }

  lemma GrayShifts(p: Rgb, q: Rgb, c: int)
    requires q.r == p.r + c && q.g == p.g + c && q.b == p.b + c
    ensures Gray(q) == Gray(p) + 257 * c
  {
    GrayExact(p);
    GrayExact(q);
    var sum := Wide(p.r) * 299 + Wide(p.g) * 587 + Wide(p.b) * 114;
    assert (sum + 1000 * (257 * c)) / 1000 == sum / 1000 + 257 * c;
  }

  /** A uniform change of brightness does not change the hash. */
  lemma HashIgnoresBrightness(img: Image, brighter: Image, c: int)
    requires !img.bounds.Empty() && Shifted(img, brighter, c)
    ensures Hash(img) == Hash(brighter)
  {
    forall k | 0 <= k < Size()
      ensures Comparisons(img)[k] == Comparisons(brighter)[k]
    {
      ComparisonShifts(img, brighter, c, k % 8, k / 8);
    }
    HashDetermined(img, brighter);
  }

  lemma ComparisonShifts(img: Image, brighter: Image, c: int, x: int, y: int)
    requires !img.bounds.Empty() && Shifted(img, brighter, c) && 0 <= x < 8 && 0 <= y < 8
    ensures Brighter(img, x, y) == Brighter(brighter, x, y)
  {
    var b := img.bounds;
    SamplesInside(b, x, y);
    SamplesInside(b, x + 1, y);
    GrayShifts(img.at(SampleX(b, x), SampleY(b, y)), brighter.at(SampleX(b, x), SampleY(b, y)), c);
    GrayShifts(img.at(SampleX(b, x + 1), SampleY(b, y)), brighter.at(SampleX(b, x + 1), SampleY(b, y)), c);
  }

  // ---------- the filter on a sequence of frames ----------

  function Near(threshold: int): (Uint64, Uint64) -> bool {
    (a: Uint64, b: Uint64) => HammingDistance(a, b) <= threshold
  }

  /** Consecutive passed frames are further apart than the threshold. */
  lemma PassedDistance(threshold: int, hashes: seq<Uint64>, i: nat)
    requires i + 1 < |Passed(Near(threshold), hashes)|
    ensures var kept := Passed(Near(threshold), hashes); HammingDistance(kept[i + 1], kept[i]) > threshold
  {
    PassedAreApart(Near(threshold), hashes, i);
  }

  /** Frames dropped in one gap are within twice the threshold of each other. */
  lemma DropsAreClose(threshold: int, hashes: seq<Uint64>, i: nat, j: nat)
    requires i < j < |hashes| && forall k :: i <= k <= j ==> Dropped(Near(threshold), hashes, k)
    ensures HammingDistance(hashes[i], hashes[j]) <= 2 * threshold
  {
    var near := Near(threshold);
    GapKeepsPassed(near, hashes, i, j);
    assert Dropped(near, hashes, i) && Dropped(near, hashes, j);
    var kept := Passed(near, hashes[..i]);
    var r := kept[|kept| - 1];
    assert near(hashes[i], r) && near(hashes[j], r);
    HammingTriangle(hashes[i], r, hashes[j]);
    HammingSymmetric(r, hashes[j]);
  }

  /** No frame is lost for good: each is within the threshold of one that passed. */
  lemma EveryFrameRepresented(threshold: nat, hashes: seq<Uint64>, i: nat)
    requires i < |hashes|
    ensures var kept := Passed(Near(threshold), hashes);
      exists j :: 0 <= j < |kept| && HammingDistance(hashes[i], kept[j]) <= threshold
  {
    HammingZero(hashes[i], hashes[i]);
    var j := PassedCover(Near(threshold), hashes, i);
    assert Near(threshold)(hashes[i], Passed(Near(threshold), hashes)[j]);
  }

  /** A frame of opposite contrast passes behind another one exactly if the threshold is
      below 64, the largest distance there is. */
  lemma ContrastPasses(falling: Image, rising: Image, threshold: int)
    requires falling.bounds.minX == 0 && falling.bounds.maxX == 9 && !falling.bounds.Empty() && Falls(falling)
    requires rising.bounds.minX == 0 && rising.bounds.maxX == 9 && !rising.bounds.Empty() && Rises(rising)
    ensures var hashes := [Hash(rising), Hash(falling)];
      |Passed(Near(threshold), hashes)| == if threshold < 64 then 2 else 1
  {
    FallingAndRising(falling, rising);
    HammingSymmetric(Hash(rising), Hash(falling));
    TwoItems(Near(threshold), Hash(rising), Hash(falling));
  }

  // ---------- the filter object ----------

  class DuplicateFilter {
    const threshold: int
    var lastHash: Uint64
    var hasLast: bool
    ghost var seen: seq<Uint64>  // the hashes of all frames so far

    constructor (threshold: int)
      ensures Valid() && seen == [] && this.threshold == threshold
    {
      this.threshold := threshold;
      lastHash := 0;
      hasLast := false;
      seen := [];
    }

    /** The fields remember the last hash that passed. */
    ghost predicate Valid()
      reads this
    {
      var kept := Passed(Near(threshold), seen);
      hasLast == (|kept| > 0) && (hasLast ==> lastHash == kept[|kept| - 1])
    }

    /** Whether the hash repeats the last one that passed; otherwise it becomes the last. */
    method Repeated(hash: Uint64) returns (repeated: bool)
      requires Valid()
      modifies this
      ensures Valid() && seen == old(seen) + [hash]
      ensures repeated == Repeats(Near(threshold), Passed(Near(threshold), old(seen)), hash)
    {
      PassedSnoc(Near(threshold), seen, hash);
      seen := seen + [hash];
      if hasLast && Near(threshold)(hash, lastHash) {
        return true;
      }
      lastHash := hash;
      hasLast := true;
      return false;
    }

    method Apply(frame: Image, meta: FrameMeta) returns (v: Verdict)
      requires Valid()
      modifies this
      ensures Valid() && seen == old(seen) + [Hash(frame)]
      ensures v == if Repeats(Near(threshold), Passed(Near(threshold), old(seen)), Hash(frame)) then Drop
                   else Pass(FilteredFrame(frame, meta, Exactly(1.0)))
    {
      var hash := DHash(frame);
      var repeated := Repeated(hash);
      if repeated {
        return Drop;
      }
      return Pass(FilteredFrame(frame, meta, Exactly(1.0)));
    }
  }
}
