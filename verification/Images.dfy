/** Images as Go's image interface presents them: bounds and a colour at each point. */
module Images {
  import opened Rectangles

  type Byte = n: int | 0 <= n < 256

  datatype Rgb = Rgb(r: Byte, g: Byte, b: Byte)

  /** `at` is meaningful inside the bounds; outside it is whatever the image type
      returns there. */
  datatype Image = Image(bounds: Rect, at: (int, int) -> Rgb)

  datatype GrayImage = GrayImage(bounds: Rect, at: (int, int) -> Byte)

  predicate Inside(b: Rect, x: int, y: int) {
    b.minX <= x < b.maxX && b.minY <= y < b.maxY
  }

  /** A gray image reads as 0 outside its bounds. */
  function GrayAt(g: GrayImage, x: int, y: int): Byte {
    if Inside(g.bounds, x, y) then g.at(x, y) else 0
  }
}
