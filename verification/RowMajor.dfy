/** Two-dimensional data in flat arrays, row after row. */
module RowMajor {
  import opened Rectangles

  /** Row-major index arithmetic. */
  lemma Flat(w: int, i: int, x: int, y: int)
    requires 0 <= x < w && 0 <= y && i == y * w + x
    ensures 0 <= i && i / w == y && i % w == x
  {
    ProductMonotone(0, y, w);
    var q, r := i / w, i % w;
    assert i == q * w + r;
    if q < y {
      ProductMonotone(q + 1, y, w);
    }
    if q > y {
      ProductMonotone(y + 1, q, w);
    }
  }

  lemma FlatInside(w: int, h: int, x: int, y: int)
    requires 0 <= x < w && 0 <= y < h
    ensures 0 <= y * w + x < w * h
  {
    ProductMonotone(0, y, w);
    ProductMonotone(y + 1, h, w);
    NextRow(w, y);
  }

  lemma NextRow(w: int, y: int)
    ensures (y + 1) * w == y * w + w
  {
  }

  /** The first k cells of a row-major array of width w hold the values of f. */
  ghost predicate Filled<T>(cells: seq<T>, f: (int, int) -> T, w: int, k: int)
    requires w > 0
  {
    k <= |cells| && forall i :: 0 <= i < k ==> cells[i] == f(i % w, i / w)
  }

  lemma FillNext<T>(cells: seq<T>, f: (int, int) -> T, w: int, x: int, y: int, k: int)
    requires 0 <= x < w && 0 <= y && k == y * w + x && k < |cells| && Filled(cells, f, w, k)
    ensures 0 <= k && Filled(cells[k := f(x, y)], f, w, k + 1)
  {
    Flat(w, k, x, y);
  }

  /** Reading back a filled array by row and column. */
  lemma ReadCell<T>(cells: seq<T>, f: (int, int) -> T, w: int, h: int, x: int, y: int)
    requires 0 <= x < w && 0 <= y < h && |cells| == w * h && Filled(cells, f, w, |cells|)
    ensures 0 <= y * w + x < |cells| && cells[y * w + x] == f(x, y)
  {
    FlatInside(w, h, x, y);
    Flat(w, y * w + x, x, y);
  }
}
