/** Turning one frame's candidate squares into a face: exactly nine candidates are
    needed; they are stable-sorted by y, cut into three rows of three, each row is
    stable-sorted by x, and the rows are concatenated top to bottom. */
module FaceAssembly {
  import opened Wrappers
  import opened CubeTypes
  import opened StableSort
  import opened ContourFilter

  /** Row `k` (0 top, 2 bottom) of a nine-square sequence. */
  function Row(s: seq<Square>, k: nat): (r: seq<Square>)
    requires |s| == 9 && k < 3
    ensures |r| == 3
  {
    s[3 * k .. 3 * k + 3]
  }

  /** Reading order: every square of an upper row has y at most that of every
      square of a lower row, and x is nondecreasing along each row. */
  predicate RowMajor(face: Face) {
    && (forall i, j | 0 <= i < 9 && 0 <= j < 9 && i / 3 < j / 3 ::
          face[i].bounds.y <= face[j].bounds.y)
    && (forall k | 0 <= k < 3 :: SortedOn(Row(face, k), X))
  }

  /** `face` is what the two-phase sort makes of `squares`: some stable y-sort of
      them, whose consecutive groups of three are each stable-sorted by x. */
  ghost predicate TwoPhaseOrder(face: Face, squares: seq<Square>) {
    exists byY :: IsStableSortOf(byY, squares, Y) && |byY| == 9 && RowsStableOnX(face, byY)
  }

  ghost predicate RowsStableOnX(face: Face, byY: seq<Square>)
    requires |byY| == 9
  {
    && IsStableSortOf(Row(face, 0), Row(byY, 0), X)
    && IsStableSortOf(Row(face, 1), Row(byY, 1), X)
    && IsStableSortOf(Row(face, 2), Row(byY, 2), X)
  }

  /** The face assembler. No face unless there are exactly nine candidates. */
  function AssembleFace(squares: seq<Square>): (r: Option<Face>)
    ensures r.None? <==> |squares| != 9
    ensures r.Some? ==> multiset(r.value) == multiset(squares)
    ensures r.Some? ==> RowMajor(r.value)
    ensures r.Some? ==> TwoPhaseOrder(r.value, squares)
  {
    if |squares| != 9 then None
    else
      var byY := SortOn(squares, Y);
      var face := ArrangeRows(byY);
      ArrangeRowsStable(byY);
      TwoPhaseIsRowMajor(face, squares, byY);
      Some(face)
  }

  /** The second phase: each group of three stable-sorted by x, top to bottom. */
  function ArrangeRows(byY: seq<Square>): Face
    requires |byY| == 9
  {
    SortOn(Row(byY, 0), X) + SortOn(Row(byY, 1), X) + SortOn(Row(byY, 2), X)
  }

  lemma ArrangeRowsStable(byY: seq<Square>)
    requires |byY| == 9
    ensures RowsStableOnX(ArrangeRows(byY), byY)
  {
    var face := ArrangeRows(byY);
    ArrangeRowsAre(byY);
    RowSortedStable(Row(face, 0), Row(byY, 0));
    RowSortedStable(Row(face, 1), Row(byY, 1));
    RowSortedStable(Row(face, 2), Row(byY, 2));
  }

  lemma ArrangeRowsAre(byY: seq<Square>)
    requires |byY| == 9
    ensures Row(ArrangeRows(byY), 0) == SortOn(Row(byY, 0), X)
    ensures Row(ArrangeRows(byY), 1) == SortOn(Row(byY, 1), X)
    ensures Row(ArrangeRows(byY), 2) == SortOn(Row(byY, 2), X)
  {
    var a, b, c := SortOn(Row(byY, 0), X), SortOn(Row(byY, 1), X), SortOn(Row(byY, 2), X);
    assert ArrangeRows(byY) == a + b + c;
    ThreeRows(a, b, c);
  }

  lemma RowSortedStable(row: seq<Square>, groupOfY: seq<Square>)
    requires row == SortOn(groupOfY, X)
    ensures IsStableSortOf(row, groupOfY, X)
  {
  }

  lemma ThreeRows(a: seq<Square>, b: seq<Square>, c: seq<Square>)
    requires |a| == 3 && |b| == 3 && |c| == 3
    ensures Row(a + b + c, 0) == a && Row(a + b + c, 1) == b && Row(a + b + c, 2) == c
  {
    var s := a + b + c;
    assert s[0..3] == a;
    assert s[3..6] == b;
    assert s[6..9] == c;
  }

  /** Any face in two-phase order is in reading order and a permutation of the
      candidates. */
  lemma TwoPhaseIsRowMajor(face: Face, squares: seq<Square>, byY: seq<Square>)
    requires IsStableSortOf(byY, squares, Y) && |byY| == 9 && RowsStableOnX(face, byY)
    ensures multiset(face) == multiset(squares)
    ensures RowMajor(face)
  {
    RowsPermute(face, byY);
    RowsOrderedByY(face, byY);
    assert SortedOn(Row(face, 0), X) && SortedOn(Row(face, 1), X) && SortedOn(Row(face, 2), X);
    assert forall k | 0 <= k < 3 :: SortedOn(Row(face, k), X) by {
      forall k | 0 <= k < 3 ensures SortedOn(Row(face, k), X) {
        if k == 0 {} else if k == 1 {} else {}
      }
    }
  }

  /** Rearranging within each group of three keeps the squares. */
  lemma RowsPermute(face: Face, byY: seq<Square>)
    requires |byY| == 9 && RowsStableOnX(face, byY)
    ensures multiset(face) == multiset(byY)
  {
    assert face == Row(face, 0) + Row(face, 1) + Row(face, 2);
    assert byY == Row(byY, 0) + Row(byY, 1) + Row(byY, 2);
  }

  /** Upper groups of a y-sorted sequence have no larger y than lower groups,
      however each group is rearranged. */
  lemma RowsOrderedByY(face: Face, byY: seq<Square>)
    requires |byY| == 9 && SortedOn(byY, Y) && RowsStableOnX(face, byY)
    ensures forall i, j | 0 <= i < 9 && 0 <= j < 9 && i / 3 < j / 3 ::
      face[i].bounds.y <= face[j].bounds.y
  {
    forall i, j | 0 <= i < 9 && 0 <= j < 9 && i / 3 < j / 3
      ensures face[i].bounds.y <= face[j].bounds.y
    {
      var p := RowSource(face, byY, i);
      var q := RowSource(face, byY, j);
      assert Coord(byY[p], Y) <= Coord(byY[q], Y);
    }
  }

  /** The position in `byY` that the square at position `i` of the face came from:
      it lies in the same group of three. */
  lemma RowSource(face: Face, byY: seq<Square>, i: nat) returns (p: nat)
    requires |byY| == 9 && RowsStableOnX(face, byY) && i < 9
    ensures p < 9 && p / 3 == i / 3 && byY[p] == face[i]
  {
    var k := i / 3;
    var row := Row(face, k);
    assert row[i - 3 * k] == face[i];
    assert face[i] in multiset(Row(byY, k));
    var m :| 0 <= m < 3 && Row(byY, k)[m] == face[i];
    p := 3 * k + m;
  }

  /** Only one face is in two-phase order for a given candidate list, and the
      assembler returns it: the result does not depend on which stable sort
      is used. */
  lemma TwoPhaseOrderUnique(face: Face, squares: seq<Square>)
    ensures TwoPhaseOrder(face, squares) ==> AssembleFace(squares) == Some(face)
  {
    if TwoPhaseOrder(face, squares) {
      var byY :| IsStableSortOf(byY, squares, Y) && |byY| == 9 && RowsStableOnX(face, byY);
      StableSortIsSortOn(byY, squares, Y);
      SameRowsSameFace(face, byY);
    }
  }

  /** When no two candidates share a y, the face does not depend on the order in
      which the candidates were found. */
  lemma DistinctYOrderIndependent(a: seq<Square>, b: seq<Square>)
    requires multiset(a) == multiset(b) && DistinctOn(a, Y)
    ensures AssembleFace(a) == AssembleFace(b)
  {
    assert |a| == |multiset(a)| == |multiset(b)| == |b|;
    DistinctSortsAgree(a, b, Y);
  }

  lemma SameRowsSameFace(face: Face, byY: seq<Square>)
    requires |byY| == 9 && RowsStableOnX(face, byY)
    ensures face == ArrangeRows(byY)
  {
    StableSortIsSortOn(Row(face, 0), Row(byY, 0), X);
    StableSortIsSortOn(Row(face, 1), Row(byY, 1), X);
    StableSortIsSortOn(Row(face, 2), Row(byY, 2), X);
    ArrangeRowsAre(byY);
    RowsDetermineFace(face, ArrangeRows(byY));
  }

  /** Nine-square sequences with the same three rows are equal. */
  lemma RowsDetermineFace(a: seq<Square>, b: seq<Square>)
    requires |a| == 9 && |b| == 9
    requires Row(a, 0) == Row(b, 0) && Row(a, 1) == Row(b, 1) && Row(a, 2) == Row(b, 2)
    ensures a == b
  {
    assert a == Row(a, 0) + Row(a, 1) + Row(a, 2);
    assert b == Row(b, 0) + Row(b, 1) + Row(b, 2);
  }

  /** One frame's scan: the candidate filter followed by the face assembler. */
  function ScanSide(cs: seq<Contour>): (r: Option<Face>)
    requires WellFormed(cs)
    ensures r.Some? <==> |KeptContours(cs)| == 9
    ensures r.Some? ==> multiset(r.value) == multiset(Candidates(cs)) && RowMajor(r.value)
  {
    AssembleFace(Candidates(cs))
  }

  /** Eight or ten candidates give no face: nothing partial is ever returned. */
  lemma NoFaceOffByOne(squares: seq<Square>)
    requires |squares| == 8 || |squares| == 10
    ensures AssembleFace(squares).None?
  {
  }

  /** Every square of a scanned face comes from a kept outline: square, large,
      and not holding a square first child. */
  lemma ScannedSquaresAreKept(cs: seq<Contour>, sq: Square)
    requires WellFormed(cs)
    ensures ScanSide(cs).Some? && sq in ScanSide(cs).value ==>
      exists i :: 0 <= i < |cs| && Keep(cs, i) && sq == SquareOf(cs[i])
  {
    var c := Candidates(cs);
    AssembledFromInput(c, sq);
    if sq in c {
      var k :| 0 <= k < |c| && c[k] == sq;
    }
  }

  /** Every square of an assembled face is one of the candidates. */
  lemma AssembledFromInput(squares: seq<Square>, sq: Square)
    ensures AssembleFace(squares).Some? && sq in AssembleFace(squares).value ==> sq in squares
  {
    var r := AssembleFace(squares);
    if r.Some? && sq in r.value {
      assert sq in multiset(r.value);
    }
  }
}
