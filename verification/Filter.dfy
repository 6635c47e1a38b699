/** What passes between the filters of a pipeline. */
module Filters {
  import opened Images
  import opened Rectangles

  datatype FrameMeta = FrameMeta(streamID: string, seqNum: int, timestamp: int, imageSize: int)

  /** A quality score: a number, the square root of one, or the result of 0/0. */
  datatype Score = Exactly(value: real) | RootOf(square: real) | NotANumber

  datatype FilteredFrame = FilteredFrame(image: Image, meta: FrameMeta, score: Score)

  /** A filter's verdict; a frame comes only with a pass. */
  datatype Verdict = Pass(frame: FilteredFrame) | Drop | Abort

  /** Sizes the blur filter can measure: with one side below two and the other above,
      the number of responses it allocates would be negative. */
  predicate Measurable(b: Rect) {
    0 <= b.Dx() && 0 <= b.Dy() && (b.Dx() - 2) * (b.Dy() - 2) >= 0
  }
}
