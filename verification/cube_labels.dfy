/** Naming the six captured faces and mapping the clustering's 54 labels back onto
    them. Capture index i of a face gives its name; label i of the flattened sample
    list goes to face i / 9 at position i % 9. */
module CubeLabels {
  import opened CubeTypes

  datatype FaceLabel = Front | Left | Back | Right | Up | Down

  /** The name given to the face captured `i`-th (from 0). */
  function SideLabel(i: nat): FaceLabel
    requires i < 6
  {
    match i
    case 0 => Front
    case 1 => Left
    case 2 => Back
    case 3 => Right
    case 4 => Up
    case _ => Down
  }

  /** The capture index a name belongs to; the inverse of `SideLabel`. */
  function SideIndex(f: FaceLabel): (i: nat)
    ensures i < 6 && SideLabel(i) == f
  {
    match f
    case Front => 0
    case Left => 1
    case Back => 2
    case Right => 3
    case Up => 4
    case Down => 5
  }

  lemma SideLabelInjective(i: nat, j: nat)
    requires i < 6 && j < 6 && SideLabel(i) == SideLabel(j)
    ensures i == j
  {
  }

  /** The face a label index is filed under: nine indices each for front, left,
      back, right and up, and every index from 45 on for down. */
  function FaceOfIndex(i: nat): FaceLabel {
    if i <= 8 then Front
    else if 9 <= i <= 17 then Left
    else if 18 <= i <= 26 then Back
    else if 27 <= i <= 35 then Right
    else if 36 <= i <= 44 then Up
    else Down
  }

  /** Below 54, the range test is the quotient by nine: index i belongs to the face
      captured i / 9-th. */
  lemma FaceOfIndexIsQuotient(i: nat)
    requires i < 54
    ensures FaceOfIndex(i) == SideLabel(i / 9)
  {
  }

  /** Where face `f`'s labels start and end among `n` labels: nine-wide bands in
      capture order, with down taking everything from index 45 on. */
  function BandStart(f: FaceLabel, n: nat): (lo: nat)
    ensures lo <= n
  {
    Min(9 * SideIndex(f), n)
  }

  function BandEnd(f: FaceLabel, n: nat): (hi: nat)
    ensures BandStart(f, n) <= hi <= n
  {
    if f == Down then n else Min(9 * SideIndex(f) + 9, n)
  }

  function Min(a: nat, b: nat): nat {
    if a <= b then a else b
  }

  /** Index i falls in the band of exactly the face `FaceOfIndex` files it under. */
  lemma FaceOfIndexInBand(i: nat, f: FaceLabel)
    ensures FaceOfIndex(i) == f <==> BandStart(f, i + 1) <= i < BandEnd(f, i + 1)
  {
  }

  type CubeMap = map<FaceLabel, seq<int>>

  const EmptyCube: CubeMap := map[Front := [], Left := [], Back := [], Right := [], Up := [], Down := []]

  lemma EmptyCubeComplete()
    ensures forall f :: f in EmptyCube && EmptyCube[f] == []
  {
    forall f ensures f in EmptyCube && EmptyCube[f] == [] {
      assert f.Front? || f.Left? || f.Back? || f.Right? || f.Up? || f.Down?;
    }
  }

  /** Files the cluster labels, in order, under the face their index belongs to.
      Every face is present, and each receives the contiguous band of labels that
      falls in its index range, in order. */
  function SplitLabels(labels: seq<int>): (cube: CubeMap)
    ensures forall f :: f in cube
    ensures forall f :: cube[f] == labels[BandStart(f, |labels|) .. BandEnd(f, |labels|)]
  {
    if labels == [] then
      EmptyCubeComplete();
      EmptyCube
    else
      var n := |labels| - 1;
      var before := SplitLabels(labels[..n]);
      var f := FaceOfIndex(n);
      var cube := before[f := before[f] + [labels[n]]];
      SplitStep(labels, before, cube);
      cube
  }

  /** Filing label n under its face turns the split of the first n labels into
      the split of all n + 1. */
  lemma SplitStep(labels: seq<int>, before: CubeMap, cube: CubeMap)
    requires |labels| > 0
    requires forall g :: g in before
    requires forall g :: before[g] == labels[..|labels| - 1][BandStart(g, |labels| - 1) .. BandEnd(g, |labels| - 1)]
    requires var n := |labels| - 1;
      cube == before[FaceOfIndex(n) := before[FaceOfIndex(n)] + [labels[n]]]
    ensures forall g :: g in cube
    ensures forall g :: cube[g] == labels[BandStart(g, |labels|) .. BandEnd(g, |labels|)]
  {
    var n := |labels| - 1;
    var f := FaceOfIndex(n);
    forall g ensures cube[g] == labels[BandStart(g, n + 1) .. BandEnd(g, n + 1)] {
      var extra := if f == g then [labels[n]] else [];
      assert cube[g] == before[g] + extra;
      BandGrows(labels, g, before[g]);
    }
  }

  /** Label n extends the band of the face it is filed under and leaves the
      other bands as they were. */
  lemma BandGrows(labels: seq<int>, g: FaceLabel, band: seq<int>)
    requires |labels| > 0
    requires band == labels[..|labels| - 1][BandStart(g, |labels| - 1) .. BandEnd(g, |labels| - 1)]
    ensures var n := |labels| - 1;
      band + (if FaceOfIndex(n) == g then [labels[n]] else []) == labels[BandStart(g, n + 1) .. BandEnd(g, n + 1)]
  {
    var n := |labels| - 1;
    var lo, hi := BandStart(g, n), BandEnd(g, n);
    FaceOfIndexInBand(n, g);
    PrefixSlice(labels, n, lo, hi);
    if FaceOfIndex(n) == g {
      assert lo == BandStart(g, n + 1) && hi == n && BandEnd(g, n + 1) == n + 1;
      SliceExtend(labels, lo, n);
    } else if 9 * SideIndex(g) > n {
      // the band of g has not started yet
      assert lo == hi && BandStart(g, n + 1) == BandEnd(g, n + 1);
    } else {
      // the band of g is already complete
      assert lo == BandStart(g, n + 1) && hi == BandEnd(g, n + 1);
    }
  }

  lemma PrefixSlice(s: seq<int>, n: nat, lo: nat, hi: nat)
    requires lo <= hi <= n <= |s|
    ensures s[..n][lo..hi] == s[lo..hi]
  {
  }

  lemma SliceExtend(s: seq<int>, lo: nat, n: nat)
    requires lo <= n < |s|
    ensures s[lo..n + 1] == s[lo..n] + [s[n]]
  {
  }

  /** The cube map's lists read back in capture order. */
  function JoinCube(cube: CubeMap): seq<int>
    requires forall f :: f in cube
  {
    cube[Front] + cube[Left] + cube[Back] + cube[Right] + cube[Up] + cube[Down]
  }

  /** Nothing is lost or reordered by the split, whatever the number of labels. */
  lemma {:induction false} JoinSplit(labels: seq<int>)
    ensures JoinCube(SplitLabels(labels)) == labels
  {
    var cube := SplitLabels(labels);
    var n := |labels|;
    var a, b, c, d, e := Min(9, n), Min(18, n), Min(27, n), Min(36, n), Min(45, n);
    assert BandStart(Front, n) == 0 && BandEnd(Front, n) == a;
    assert BandStart(Left, n) == a && BandEnd(Left, n) == b;
    assert BandStart(Back, n) == b && BandEnd(Back, n) == c;
    assert BandStart(Right, n) == c && BandEnd(Right, n) == d;
    assert BandStart(Up, n) == d && BandEnd(Up, n) == e;
    assert BandStart(Down, n) == e && BandEnd(Down, n) == n;
    assert cube[Front] == labels[0 .. a];
    assert cube[Left] == labels[a .. b];
    assert cube[Back] == labels[b .. c];
    assert cube[Right] == labels[c .. d];
    assert cube[Up] == labels[d .. e];
    assert cube[Down] == labels[e .. n];
    SliceJoin(labels, 0, a, b);
    SliceJoin(labels, 0, b, c);
    SliceJoin(labels, 0, c, d);
    SliceJoin(labels, 0, d, e);
    SliceJoin(labels, 0, e, n);
    assert labels[0 .. n] == labels;
  }

  lemma SliceJoin(s: seq<int>, a: nat, b: nat, c: nat)
    requires a <= b <= c <= |s|
    ensures s[a .. b] + s[b .. c] == s[a .. c]
  {
  }

  /** With the 54 labels of a full scan, each face gets exactly nine labels, and
      the label at position p of the face captured q-th is label 9 * q + p. */
  lemma SplitFullScan(labels: seq<int>)
    requires |labels| == 54
    ensures forall f :: |SplitLabels(labels)[f]| == 9
    ensures forall q, p | 0 <= q < 6 && 0 <= p < 9 :: SplitLabels(labels)[SideLabel(q)][p] == labels[9 * q + p]
  {
    var cube := SplitLabels(labels);
    forall f ensures |cube[f]| == 9 {
      FullBand(labels, f);
    }
    forall q, p | 0 <= q < 6 && 0 <= p < 9 ensures cube[SideLabel(q)][p] == labels[9 * q + p] {
      FullScanAt(labels, q, p);
    }
  }

  lemma FullScanAt(labels: seq<int>, q: nat, p: nat)
    requires |labels| == 54 && q < 6 && p < 9
    ensures |SplitLabels(labels)[SideLabel(q)]| == 9
    ensures SplitLabels(labels)[SideLabel(q)][p] == labels[9 * q + p]
  {
    SideIndexOfLabel(q);
    FullBand(labels, SideLabel(q));
    SliceAt(labels, 9 * q, p);
  }

  /** With 54 labels, the band of face f is the nine labels from 9 * SideIndex(f). */
  lemma FullBand(labels: seq<int>, f: FaceLabel)
    requires |labels| == 54
    ensures SplitLabels(labels)[f] == labels[9 * SideIndex(f) .. 9 * SideIndex(f) + 9]
  {
    assert BandStart(f, 54) == 9 * SideIndex(f);
    assert BandEnd(f, 54) == 9 * SideIndex(f) + 9;
  }

  lemma SliceAt(s: seq<int>, lo: nat, p: nat)
    requires lo + 9 <= |s| && p < 9
    ensures s[lo..lo + 9][p] == s[lo + p]
  {
  }

  lemma SideIndexOfLabel(i: nat)
    requires i < 6
    ensures SideIndex(SideLabel(i)) == i
  {
  }

  /** The colours of all captured squares, face after face, position after
      position within each face. */
  function Flatten(sides: seq<Face>): (r: seq<Bgr>)
    ensures |r| == 9 * |sides|
    ensures forall f, p | 0 <= f < |sides| && 0 <= p < 9 :: r[9 * f + p] == sides[f][p].avgColor
  {
    if sides == [] then []
    else
      var head := seq(9, p requires 0 <= p < 9 => sides[0][p].avgColor);
      var rest := Flatten(sides[1..]);
      var r := head + rest;
      forall f, p | 0 <= f < |sides| && 0 <= p < 9 ensures r[9 * f + p] == sides[f][p].avgColor {
        if f > 0 {
          assert r[9 * f + p] == rest[9 * (f - 1) + p];
          assert sides[1..][f - 1] == sides[f];
        }
      }
      r
  }

  /** Every captured face under its capture-order name. */
  function LabelSides(sides: seq<Face>): (m: map<FaceLabel, Face>)
    requires |sides| <= 6
    ensures forall f :: f in m <==> SideIndex(f) < |sides|
    ensures forall f | f in m :: m[f] == sides[SideIndex(f)]
  {
    if sides == [] then map[]
    else
      var n := |sides| - 1;
      var before := LabelSides(sides[..n]);
      var m := before[SideLabel(n) := sides[n]];
      SideIndexOfLabel(n);
      forall f ensures f in m <==> SideIndex(f) < |sides| {
        assert f == SideLabel(n) <==> SideIndex(f) == n;
      }
      forall f | f in m ensures m[f] == sides[SideIndex(f)] {
        if f != SideLabel(n) {
          assert m[f] == before[f] == sides[..n][SideIndex(f)];
        }
      }
      m
  }

  /** What the finished scan produces: the cube map of cluster labels and the
      captured faces, both keyed by face name. */
  datatype CubeScan = CubeScan(cube: CubeMap, sides: map<FaceLabel, Face>)

  /** Resolving a complete scan with the labels the clustering gave its samples. */
  function Resolve(sides: seq<Face>, labels: seq<int>): (r: CubeScan)
    requires |sides| == 6
    ensures forall f :: f in r.cube && f in r.sides
    ensures forall i | 0 <= i < 6 :: r.sides[SideLabel(i)] == sides[i]
    ensures forall f :: r.cube[f] == labels[BandStart(f, |labels|) .. BandEnd(f, |labels|)]
    ensures JoinCube(r.cube) == labels
  {
    CubeScan(FileLabels(labels), NameSides(sides))
  }

  /** The cube map of a resolution: the labels filed by band, which read back in
      capture order give the labels again. */
  function FileLabels(labels: seq<int>): (cube: CubeMap)
    ensures forall f :: f in cube
    ensures forall f :: cube[f] == labels[BandStart(f, |labels|) .. BandEnd(f, |labels|)]
    ensures JoinCube(cube) == labels
  {
    JoinSplit(labels);
    SplitLabels(labels)
  }

  /** The captured faces under their names, in capture order. */
  function NameSides(sides: seq<Face>): (named: map<FaceLabel, Face>)
    requires |sides| == 6
    ensures forall f :: f in named
    ensures forall i | 0 <= i < 6 :: named[SideLabel(i)] == sides[i]
  {
    var named := LabelSides(sides);
    NamedInOrder(sides, named);
    named
  }

  lemma NamedInOrder(sides: seq<Face>, named: map<FaceLabel, Face>)
    requires |sides| == 6 && named == LabelSides(sides)
    ensures forall f :: f in named
    ensures forall i | 0 <= i < 6 :: named[SideLabel(i)] == sides[i]
  {
    forall i | 0 <= i < 6 ensures named[SideLabel(i)] == sides[i] {
      SideIndexOfLabel(i);
    }
  }
}
