/** Stable sorting of squares by one coordinate of their bounding box, as the
    face assembler does it twice (by y, then each row by x).

    Stability is stated without indices: for every coordinate value k, the squares
    sitting at k appear in the result in the same relative order as in the input
    (`WithCoord` picks that subsequence). A sorted sequence with that property is
    unique (`StableSortUnique`), so the insertion sort below yields exactly what
    any stable sort, including the language's built-in one, yields. */
module StableSort {
  import opened CubeTypes

  datatype Axis = X | Y

  /** The coordinate a sort on `axis` uses as its key: the box's left or top edge. */
  function Coord(sq: Square, axis: Axis): int {
    match axis
    case X => sq.bounds.x
    case Y => sq.bounds.y
  }

  predicate SortedOn(s: seq<Square>, axis: Axis) {
    forall i, j | 0 <= i < j < |s| :: Coord(s[i], axis) <= Coord(s[j], axis)
  }

  /** The subsequence of `s` whose coordinate on `axis` is `k`, in order. */
  function WithCoord(s: seq<Square>, axis: Axis, k: int): seq<Square> {
    if s == [] then [] else Pick(s[0], axis, k) + WithCoord(s[1..], axis, k)
  }

  /** `[x]` when x's coordinate on `axis` is `k`, otherwise nothing. */
  function Pick(x: Square, axis: Axis, k: int): seq<Square> {
    if Coord(x, axis) == k then [x] else []
  }

  /** `r` is the stable sort of `s` on `axis`: sorted, a permutation, and squares
      with equal keys keep their input order. */
  ghost predicate IsStableSortOf(r: seq<Square>, s: seq<Square>, axis: Axis) {
    && SortedOn(r, axis)
    && multiset(r) == multiset(s)
    && forall k :: WithCoord(r, axis, k) == WithCoord(s, axis, k)
  }

  lemma WithCoordCons(x: Square, s: seq<Square>, axis: Axis, k: int)
    ensures WithCoord([x] + s, axis, k) == Pick(x, axis, k) + WithCoord(s, axis, k)
  {
    assert ([x] + s)[0] == x;
    assert ([x] + s)[1..] == s;
  }

  /** Everything picked by `WithCoord` comes from the input and sits at `k`. */
  lemma {:induction false} WithCoordMember(s: seq<Square>, axis: Axis, k: int, x: Square)
    requires x in WithCoord(s, axis, k)
    ensures x in s && Coord(x, axis) == k
    decreases |s|
  {
    if s != [] && !(x == s[0] && Coord(s[0], axis) == k) {
      assert x in WithCoord(s[1..], axis, k);
      WithCoordMember(s[1..], axis, k, x);
    }
  }

  /** Inserts `x` into a sorted sequence in front of the first square whose key is
      not smaller, so it precedes the squares it ties with. */
  function Insert(x: Square, s: seq<Square>, axis: Axis): (r: seq<Square>)
    requires SortedOn(s, axis)
    ensures |r| == |s| + 1
    ensures SortedOn(r, axis)
    ensures multiset(r) == multiset(s) + multiset{x}
    ensures forall k :: WithCoord(r, axis, k) == Pick(x, axis, k) + WithCoord(s, axis, k)
  {
    if s == [] || Coord(x, axis) <= Coord(s[0], axis) then
      forall k ensures WithCoord([x] + s, axis, k) == Pick(x, axis, k) + WithCoord(s, axis, k) {
        WithCoordCons(x, s, axis, k);
      }
      [x] + s
    else
      var rest := Insert(x, s[1..], axis);
      InsertBehind(x, s, rest, axis);
      [s[0]] + rest
  }

  /** When `x` goes behind the first square of `s`, the result is still sorted, a
      permutation, and stable. */
  lemma InsertBehind(x: Square, s: seq<Square>, rest: seq<Square>, axis: Axis)
    requires s != [] && SortedOn(s, axis) && Coord(s[0], axis) < Coord(x, axis)
    requires SortedOn(rest, axis)
    requires multiset(rest) == multiset(s[1..]) + multiset{x}
    requires forall k :: WithCoord(rest, axis, k) == Pick(x, axis, k) + WithCoord(s[1..], axis, k)
    ensures SortedOn([s[0]] + rest, axis)
    ensures multiset([s[0]] + rest) == multiset(s) + multiset{x}
    ensures forall k :: WithCoord([s[0]] + rest, axis, k) == Pick(x, axis, k) + WithCoord(s, axis, k)
  {
    assert s == [s[0]] + s[1..];
    InsertBehindSorted(x, s, rest, axis);
    forall k ensures WithCoord([s[0]] + rest, axis, k) == Pick(x, axis, k) + WithCoord(s, axis, k) {
      InsertBehindTies(x, s[0], s[1..], rest, axis, k);
    }
  }

  lemma InsertBehindSorted(x: Square, s: seq<Square>, rest: seq<Square>, axis: Axis)
    requires s != [] && SortedOn(s, axis) && Coord(s[0], axis) < Coord(x, axis)
    requires SortedOn(rest, axis)
    requires multiset(rest) == multiset(s[1..]) + multiset{x}
    ensures SortedOn([s[0]] + rest, axis)
  {
    var r := [s[0]] + rest;
    forall j | 0 <= j < |rest| ensures Coord(s[0], axis) <= Coord(rest[j], axis) {
      assert rest[j] in multiset(rest);
      if rest[j] != x {
        assert rest[j] in multiset(s[1..]);
        var m :| 0 <= m < |s[1..]| && s[1..][m] == rest[j];
        assert s[m + 1] == rest[j];
      }
    }
    forall i, j | 0 <= i < j < |r| ensures Coord(r[i], axis) <= Coord(r[j], axis) {
      assert r[j] == rest[j - 1];
      if i > 0 {
        assert r[i] == rest[i - 1];
      }
    }
  }

  lemma InsertBehindTies(x: Square, s0: Square, t: seq<Square>, rest: seq<Square>, axis: Axis, k: int)
    requires Coord(s0, axis) < Coord(x, axis)
    requires WithCoord(rest, axis, k) == Pick(x, axis, k) + WithCoord(t, axis, k)
    ensures WithCoord([s0] + rest, axis, k) == Pick(x, axis, k) + WithCoord([s0] + t, axis, k)
  {
    WithCoordCons(s0, rest, axis, k);
    WithCoordCons(s0, t, axis, k);
    // x and s0 have different keys, so at most one of them is picked
    SwapAroundEmpty(Pick(s0, axis, k), Pick(x, axis, k), WithCoord(t, axis, k));
  }

  lemma SwapAroundEmpty(a: seq<Square>, b: seq<Square>, c: seq<Square>)
    requires a == [] || b == []
    ensures a + (b + c) == b + (a + c)
  {
    if a == [] {
      assert a + (b + c) == b + c;
      assert a + c == c;
    } else {
      assert b + (a + c) == a + c;
      assert b + c == c;
    }
  }

  /** Insertion sort on `axis`; stable because each square goes in front of the
      squares it ties with, all of which came after it in the input. */
  function SortOn(s: seq<Square>, axis: Axis): (r: seq<Square>)
    ensures |r| == |s|
    ensures IsStableSortOf(r, s, axis)
  {
    if s == [] then []
    else
      var rest := SortOn(s[1..], axis);
      assert s == [s[0]] + s[1..];
      Insert(s[0], rest, axis)
  }

  /** Two sorted sequences that agree on every key's subsequence are equal: there
      is only one stable sort of a sequence. */
  lemma {:induction false} StableSortUnique(a: seq<Square>, b: seq<Square>, axis: Axis)
    requires SortedOn(a, axis) && SortedOn(b, axis)
    requires forall k :: WithCoord(a, axis, k) == WithCoord(b, axis, k)
    ensures a == b
    decreases |a|
  {
    if a == [] || b == [] {
      if a != [] {
        NonEmptyHasOwnKey(a, axis);
      } else if b != [] {
        NonEmptyHasOwnKey(b, axis);
      }
    } else {
      SameLeast(a, b, axis);
      forall k ensures WithCoord(a[1..], axis, k) == WithCoord(b[1..], axis, k) {
        DropCommonHead(a, b, axis, k);
      }
      StableSortUnique(a[1..], b[1..], axis);
      assert a == [a[0]] + a[1..] && b == [b[0]] + b[1..];
    }
  }

  /** Both sorted sequences start with the first square of the least key. */
  lemma SameLeast(a: seq<Square>, b: seq<Square>, axis: Axis)
    requires a != [] && b != []
    requires SortedOn(a, axis) && SortedOn(b, axis)
    requires forall k :: WithCoord(a, axis, k) == WithCoord(b, axis, k)
    ensures a[0] == b[0]
  {
    var ka := Coord(a[0], axis);
    var kb := Coord(b[0], axis);
    NonEmptyHasOwnKey(a, axis);
    NonEmptyHasOwnKey(b, axis);
    // a[0] is among b's squares at ka, so b's least key kb is at most ka
    WithCoordMember(b, axis, ka, a[0]);
    WithCoordMember(a, axis, kb, b[0]);
    assert ka == kb;
  }

  lemma DropCommonHead(a: seq<Square>, b: seq<Square>, axis: Axis, k: int)
    requires a != [] && b != [] && a[0] == b[0]
    requires WithCoord(a, axis, k) == WithCoord(b, axis, k)
    ensures WithCoord(a[1..], axis, k) == WithCoord(b[1..], axis, k)
  {
    var p := Pick(a[0], axis, k);
    assert WithCoord(a, axis, k) == p + WithCoord(a[1..], axis, k);
    assert WithCoord(b, axis, k) == p + WithCoord(b[1..], axis, k);
    assert WithCoord(a[1..], axis, k) == WithCoord(a, axis, k)[|p|..];
    assert WithCoord(b[1..], axis, k) == WithCoord(b, axis, k)[|p|..];
  }

  lemma NonEmptyHasOwnKey(s: seq<Square>, axis: Axis)
    requires s != []
    ensures WithCoord(s, axis, Coord(s[0], axis)) != []
    ensures WithCoord(s, axis, Coord(s[0], axis))[0] == s[0]
  {
  }

  /** No two squares of `s` share a coordinate on `axis`. */
  predicate DistinctOn(s: seq<Square>, axis: Axis) {
    forall i, j | 0 <= i < j < |s| :: Coord(s[i], axis) != Coord(s[j], axis)
  }

  /** With distinct keys the order of the input does not matter: permutations of
      each other sort to the same sequence. */
  lemma DistinctSortsAgree(a: seq<Square>, b: seq<Square>, axis: Axis)
    requires multiset(a) == multiset(b) && DistinctOn(a, axis)
    ensures SortOn(a, axis) == SortOn(b, axis)
  {
    forall k ensures WithCoord(a, axis, k) == WithCoord(b, axis, k) {
      forall x ensures multiset(WithCoord(a, axis, k))[x] == multiset(WithCoord(b, axis, k))[x] {
        WithCoordCount(a, axis, k, x);
        WithCoordCount(b, axis, k, x);
      }
      assert multiset(WithCoord(a, axis, k)) == multiset(WithCoord(b, axis, k));
      DistinctAtMostOne(a, axis, k);
      AtMostOneByMultiset(WithCoord(a, axis, k), WithCoord(b, axis, k));
    }
    StableSortUnique(SortOn(a, axis), SortOn(b, axis), axis);
  }

  /** `WithCoord` keeps every copy of the squares at `k` and nothing else. */
  lemma {:induction false} WithCoordCount(s: seq<Square>, axis: Axis, k: int, x: Square)
    ensures multiset(WithCoord(s, axis, k))[x] == if Coord(x, axis) == k then multiset(s)[x] else 0
    decreases |s|
  {
    if s != [] {
      var t := s[1..];
      WithCoordCount(t, axis, k, x);
      assert s == [s[0]] + t;
      assert multiset(s) == multiset{s[0]} + multiset(t);
      if Coord(s[0], axis) == k {
        assert multiset(WithCoord(s, axis, k)) == multiset{s[0]} + multiset(WithCoord(t, axis, k));
      } else {
        assert WithCoord(s, axis, k) == WithCoord(t, axis, k);
      }
    }
  }

  /** With distinct keys, at most one square sits at any key. */
  lemma {:induction false} DistinctAtMostOne(s: seq<Square>, axis: Axis, k: int)
    requires DistinctOn(s, axis)
    ensures |WithCoord(s, axis, k)| <= 1
    decreases |s|
  {
    if s != [] {
      var t := s[1..];
      assert DistinctOn(t, axis) by {
        forall i, j | 0 <= i < j < |t| ensures Coord(t[i], axis) != Coord(t[j], axis) {
          assert t[i] == s[i + 1] && t[j] == s[j + 1];
        }
      }
      if Coord(s[0], axis) == k {
        forall i | 0 <= i < |t| ensures Coord(t[i], axis) != k {
          assert t[i] == s[i + 1];
        }
        NoneAtKey(t, axis, k);
      } else {
        DistinctAtMostOne(t, axis, k);
      }
    }
  }

  lemma {:induction false} NoneAtKey(s: seq<Square>, axis: Axis, k: int)
    requires forall i | 0 <= i < |s| :: Coord(s[i], axis) != k
    ensures WithCoord(s, axis, k) == []
    decreases |s|
  {
    if s != [] {
      NoneAtKey(s[1..], axis, k);
    }
  }

  /** Sequences of at most one element are determined by their multiset. */
  lemma AtMostOneByMultiset(a: seq<Square>, b: seq<Square>)
    requires |a| <= 1 && multiset(a) == multiset(b)
    ensures a == b
  {
    assert |b| == |multiset(b)| == |multiset(a)| == |a|;
    if |a| == 1 {
      assert b[0] in multiset(a);
    }
  }

  /** Whatever stable sort produced `r`, it produced `SortOn(s)`. */
  lemma StableSortIsSortOn(r: seq<Square>, s: seq<Square>, axis: Axis)
    requires IsStableSortOf(r, s, axis)
    ensures r == SortOn(s, axis)
  {
    StableSortUnique(r, SortOn(s, axis), axis);
  }
}
