/** Half-open minute ranges and the overlap test shared by the query and submit paths. */
module Intervals {

  /** The range [start, end) of minutes of the day occupied by a booking. */
  datatype Range = Range(start: int, end: int)

  /** Whether [start, end) and r share a minute: `startMin < r.end && endMin > r.start`. */
  predicate Intersects(start: int, end: int, r: Range) {
    start < r.end && end > r.start
  }

  /** Whether [start, end) meets any of the ranges (`ranges.some(...)`). */
  predicate Overlaps(start: int, end: int, ranges: seq<Range>) {
    exists i :: 0 <= i < |ranges| && Intersects(start, end, ranges[i])
  }

  /** Ranges that only touch, one ending where the other starts, do not overlap. */
  lemma TouchingRangesDoNotIntersect(a: Range, b: Range)
    requires a.end == b.start
    ensures !Intersects(a.start, a.end, b)
    ensures !Intersects(b.start, b.end, a)
  {
  }

  lemma IntersectsSymmetric(a: Range, b: Range)
    ensures Intersects(a.start, a.end, b) <==> Intersects(b.start, b.end, a)
  {
  }

  lemma NothingOverlapsNoRanges(start: int, end: int)
    ensures !Overlaps(start, end, [])
  {
  }
}
