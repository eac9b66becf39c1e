/** Which traced outlines of a frame become candidate stickers: the squareness
    test and the nesting rule that drops an outline whose first child is also
    square. */
module ContourFilter {
  import opened CubeTypes

  /** Outlines of area at most this many square pixels are noise. */
  const MinArea: real := 500.0
  /** The circularity band a square's outline must fall in (a perfect square's
      circularity is pi/4, about 0.785); both ends are inclusive. */
  const MinSquareness: real := 0.70
  const MaxSquareness: real := 0.85

  /** The squareness test: large enough, and circularity inside the band. */
  predicate IsContourSquare(c: Contour) {
    c.area > MinArea && MinSquareness <= c.squareness <= MaxSquareness
  }

  /** Every first-child entry is -1 or the index of an outline of the frame, as
      the image library's hierarchy guarantees. */
  predicate WellFormed(cs: seq<Contour>) {
    forall i | 0 <= i < |cs| :: cs[i].firstChild == -1 || 0 <= cs[i].firstChild < |cs|
  }

  /** The nesting rule: outline `i` is kept when it is square and it has no first
      child or that first child is not square. Only the first child is examined. */
  predicate Keep(cs: seq<Contour>, i: int)
    requires WellFormed(cs) && 0 <= i < |cs|
  {
    IsContourSquare(cs[i])
    && (cs[i].firstChild == -1 || !IsContourSquare(cs[cs[i].firstChild]))
  }

  /** The indices, at `lo` and beyond, of the outlines that are kept, in the order
      the scan visits them. */
  function KeptFrom(cs: seq<Contour>, lo: nat): (r: seq<nat>)
    requires WellFormed(cs) && lo <= |cs|
    ensures forall k | 0 <= k < |r| :: lo <= r[k] < |cs| && Keep(cs, r[k])
    ensures forall k, l | 0 <= k < l < |r| :: r[k] < r[l]
    ensures forall i | lo <= i < |cs| && Keep(cs, i) :: i in r
    decreases |cs| - lo
  {
    if lo == |cs| then []
    else
      var rest := KeptFrom(cs, lo + 1);
      if Keep(cs, lo) then [lo] + rest else rest
  }

  /** The indices of the kept outlines of a frame, in scan order. */
  function KeptContours(cs: seq<Contour>): (r: seq<nat>)
    requires WellFormed(cs)
    ensures forall i :: i in r <==> 0 <= i < |cs| && Keep(cs, i)
    ensures forall k, l | 0 <= k < l < |r| :: r[k] < r[l]
  {
    KeptFrom(cs, 0)
  }

  /** The candidate square recorded for an outline: its box and its colour. */
  function SquareOf(c: Contour): Square {
    Square(c.bounds, c.meanColor)
  }

  /** The candidate squares of a frame: one per kept outline, in scan order. */
  function Candidates(cs: seq<Contour>): (r: seq<Square>)
    requires WellFormed(cs)
    ensures |r| == |KeptContours(cs)| <= |cs|
    ensures forall k | 0 <= k < |r| :: r[k] == SquareOf(cs[KeptContours(cs)[k]])
    ensures forall k | 0 <= k < |r| ::
      exists i :: 0 <= i < |cs| && Keep(cs, i) && r[k] == SquareOf(cs[i])
    ensures forall i | 0 <= i < |cs| && Keep(cs, i) :: SquareOf(cs[i]) in r
  {
    var kept := KeptContours(cs);
    KeptAtMost(cs, kept);
    var r := seq(|kept|, k requires 0 <= k < |kept| => SquareOf(cs[kept[k]]));
    assert forall k | 0 <= k < |r| :: kept[k] < |cs| && Keep(cs, kept[k]) && r[k] == SquareOf(cs[kept[k]]);
    assert forall i | 0 <= i < |cs| && Keep(cs, i) :: SquareOf(cs[i]) in r by {
      forall i | 0 <= i < |cs| && Keep(cs, i) ensures SquareOf(cs[i]) in r {
        var k :| 0 <= k < |kept| && kept[k] == i;
        assert r[k] == SquareOf(cs[i]);
      }
    }
    r
  }

  /** A strictly increasing sequence of indices below |cs| has at most |cs| entries. */
  lemma {:induction false} KeptAtMost(cs: seq<Contour>, kept: seq<nat>)
    requires forall k | 0 <= k < |kept| :: kept[k] < |cs|
    requires forall k, l | 0 <= k < l < |kept| :: kept[k] < kept[l]
    ensures |kept| <= |cs|
  {
    if |kept| > 0 {
      var n := |kept| - 1;
      // kept[k] >= k for every k, so the last entry bounds the length
      assert forall k | 0 <= k < |kept| :: kept[k] >= k by {
        forall k | 0 <= k < |kept| ensures kept[k] >= k {
          AtLeastPosition(kept, k);
        }
      }
      assert kept[n] >= n;
    }
  }

  lemma {:induction false} AtLeastPosition(kept: seq<nat>, k: nat)
    requires k < |kept|
    requires forall a, b | 0 <= a < b < |kept| :: kept[a] < kept[b]
    ensures kept[k] >= k
    decreases k
  {
    if k > 0 {
      AtLeastPosition(kept, k - 1);
    }
  }

  /** An outline of area at most 500 is never square, whatever its circularity. */
  lemma SmallContourNeverSquare(c: Contour)
    requires c.area <= 500.0
    ensures !IsContourSquare(c)
  {
  }

  /** The band is closed: a large outline exactly on either end is square, one
      just outside either end is not. */
  lemma BandEndsInclusive(c: Contour)
    requires c.area > 500.0
    ensures c.squareness == 0.70 || c.squareness == 0.85 ==> IsContourSquare(c)
    ensures c.squareness < 0.70 || c.squareness > 0.85 ==> !IsContourSquare(c)
  {
  }

  /** When an outline and its first child are both square, the outline is dropped:
      only the child can survive. */
  lemma NestedSquareDropped(cs: seq<Contour>, i: int)
    requires WellFormed(cs) && 0 <= i < |cs|
    requires cs[i].firstChild != -1 && IsContourSquare(cs[cs[i].firstChild])
    ensures i !in KeptContours(cs)
  {
  }
}
