/** Half-open integer ranges `[start, end)` (Rust's `Range<isize>`) and the
    intersection the seed-range remapping is built on. */
module Intervals {

  datatype Range = Range(start: int, end: int) {

    /** `start <= end`: every range built from a non-negative length. */
    predicate WellFormed() {
      start <= end
    }

    /** The test the remapping code applies before storing a range. */
    predicate NonEmpty() {
      end > start
    }

    /** `Range::contains`. */
    predicate Contains(v: int) {
      start <= v < end
    }

    function Length(): int {
      end - start
    }
  }

  function Min(a: int, b: int): int {
    if a <= b then a else b
  }

  function Max(a: int, b: int): int {
    if a >= b then a else b
  }

  /** `Overlap::overlap`, as written: the intersection when the guard holds,
      otherwise the empty range at `a.start`. The guard compares `a.end >=
      b.start` non-strictly, so two ranges that merely touch pass it; the
      range it then builds is empty all the same. */
  function Overlap(a: Range, b: Range): (ov: Range)
    ensures a.WellFormed() && b.WellFormed() ==> a.start <= ov.start <= ov.end <= a.end
    ensures ov.NonEmpty() ==> b.start <= ov.start && ov.end <= b.end
  {
    if a.start < b.end && a.end >= b.start then
      Range(Max(a.start, b.start), Min(a.end, b.end))
    else
      Range(a.start, a.start)
  }

  /** The overlap of two well-formed ranges holds exactly the values both
      hold. */
  lemma OverlapIsIntersection(a: Range, b: Range)
    requires a.WellFormed() && b.WellFormed()
    ensures forall v :: Overlap(a, b).Contains(v) <==> a.Contains(v) && b.Contains(v)
  {
  }

  /** Ranges that are disjoint, or only touch at one end, have an empty
      overlap, whichever of the two ends touches. */
  lemma DisjointOverlapEmpty(a: Range, b: Range)
    requires a.WellFormed() && b.WellFormed()
    requires a.end <= b.start || b.end <= a.start
    ensures !Overlap(a, b).NonEmpty()
    ensures a.end == b.start ==> Overlap(a, b) == Range(a.end, a.end)
  {
  }

  /** The piece of `r` before the overlap. */
  function Left(r: Range, ov: Range): Range {
    Range(r.start, ov.start)
  }

  /** The piece of `r` after the overlap. */
  function Right(r: Range, ov: Range): Range {
    Range(ov.end, r.end)
  }

  /** Coverage law: the piece before the overlap, the overlap and the piece
      after it are well formed, their lengths add up to the length of `r`,
      and every value of `r` lies in exactly one of them. */
  lemma SplitPartitions(r: Range, other: Range)
    requires r.WellFormed() && other.WellFormed()
    ensures var ov := Overlap(r, other);
      && Left(r, ov).WellFormed() && ov.WellFormed() && Right(r, ov).WellFormed()
      && Left(r, ov).Length() + ov.Length() + Right(r, ov).Length() == r.Length()
      && forall v :: r.Contains(v) <==>
           (Left(r, ov).Contains(v) && !ov.Contains(v) && !Right(r, ov).Contains(v))
           || (!Left(r, ov).Contains(v) && ov.Contains(v) && !Right(r, ov).Contains(v))
           || (!Left(r, ov).Contains(v) && !ov.Contains(v) && Right(r, ov).Contains(v))
  {
    OverlapIsIntersection(r, other);
  }
}
