/** Pixel grids, 4-connectivity and connected components, independent of how they are found. */
module Pixels {
  import opened Basics
  import opened Paths

  /** A row-major RGBA image; a pixel is solid when its alpha exceeds the cut. */
  datatype Image = Image(rgba: Bytes, width: nat, height: nat, cut: nat)

  ghost predicate WellFormed(img: Image) {
    img.width > 0 && |img.rgba| == img.width * img.height * 4
  }

  function Area(img: Image): nat { img.width * img.height }

  predicate InImage(img: Image, i: int) { 0 <= i < Area(img) }

  predicate Solid(img: Image, i: int) {
    InImage(img, i) && 4 * i + 3 < |img.rgba| && img.rgba[4 * i + 3] > img.cut
  }

  function X(img: Image, i: int): int { if img.width > 0 then i % img.width else 0 }

  function Y(img: Image, i: int): int { if img.width > 0 then i / img.width else 0 }

  function Distance(a: int, b: int): nat { if a < b then b - a else a - b }

  /** 4-neighbours: one step apart along one axis. */
  predicate Adjacent(img: Image, i: int, j: int) {
    Distance(X(img, i), X(img, j)) + Distance(Y(img, i), Y(img, j)) == 1
  }

  /** The solid pixels and their 4-adjacency. */
  function Grid(img: Image): Graph {
    Graph(i => Solid(img, i), (i, j) => Adjacent(img, i, j))
  }

  /** The solid pixels connected to `i`. */
  ghost function ClassOf(img: Image, i: int): set<int> {
    set j | 0 <= j < Area(img) && Reaches(Grid(img), i, j)
  }

  lemma GridSymmetric(img: Image)
    ensures forall a, b :: Grid(img).step(a, b) ==> Grid(img).step(b, a)
  {
    forall a, b | Grid(img).step(a, b) ensures Grid(img).step(b, a) {
      assert Distance(X(img, b), X(img, a)) == Distance(X(img, a), X(img, b));
    }
  }

  lemma SameClass(img: Image, i: int, j: int)
    requires Reaches(Grid(img), i, j)
    ensures ClassOf(img, i) == ClassOf(img, j)
  {
    GridSymmetric(img);
    ReachesSymmetric(Grid(img), i, j);
    forall k ensures k in ClassOf(img, i) <==> k in ClassOf(img, j) {
      if k in ClassOf(img, i) { ReachesTransitive(Grid(img), j, i, k); }
      if k in ClassOf(img, j) { ReachesTransitive(Grid(img), i, j, k); }
    }
  }

  // Coordinates.

  lemma ProductNonnegative(a: int, b: int)
    requires a >= 0 && b >= 0
    ensures a * b >= 0
  {
  }

  lemma RowsApart(a: int, b: int, w: int)
    requires a > b && w >= 0
    ensures a * w >= b * w + w
  {
    ProductNonnegative(a - b - 1, w);
    assert (a - b - 1) * w == a * w - b * w - w;
  }

  lemma SmallerQuotient(w: int, q: int, r: int, y: int, x: int)
    requires q * w + r == y * w + x && 0 <= r < w && 0 <= x < w
    ensures q <= y
  {
    if q > y { RowsApart(q, y, w); }
  }

  lemma Coordinates(w: int, i: int, x: int, y: int)
    requires 0 <= x < w && i == y * w + x
    ensures i / w == y && i % w == x
  {
    var q, r := i / w, i % w;
    assert i == q * w + r;
    SmallerQuotient(w, q, r, y, x);
    SmallerQuotient(w, y, x, q, r);
  }

  lemma RowBound(img: Image, i: int)
    requires InImage(img, i)
    ensures img.width > 0 && 0 <= Y(img, i) < img.height && 0 <= X(img, i) < img.width
    ensures i == Y(img, i) * img.width + X(img, i)
  {
    var w, h := img.width, img.height;
    assert w == 0 ==> Area(img) == 0;
    var y, x := i / w, i % w;
    assert i == y * w + x;
    if y > h - 1 { RowsApart(y, h - 1, w); }
  }

  lemma AtCoordinates(img: Image, x: int, y: int)
    requires 0 <= x < img.width && 0 <= y < img.height
    ensures InImage(img, y * img.width + x)
    ensures X(img, y * img.width + x) == x && Y(img, y * img.width + x) == y
  {
    Coordinates(img.width, y * img.width + x, x, y);
    ProductNonnegative(y, img.width);
    RowsApart(img.height, y, img.width);
  }

  lemma StepTo(img: Image, j: int, x: int, y: int)
    requires j == y * img.width + x
    ensures 0 <= x < img.width && 0 <= y < img.height ==> InImage(img, j) && X(img, j) == x && Y(img, j) == y
  {
    if 0 <= x < img.width && 0 <= y < img.height { AtCoordinates(img, x, y); }
  }

  /** Where the four neighbour indices are. */
  lemma StepFrom(img: Image, i: int)
    requires InImage(img, i)
    ensures X(img, i) > 0 ==> InImage(img, i - 1) && X(img, i - 1) == X(img, i) - 1 && Y(img, i - 1) == Y(img, i)
    ensures X(img, i) < img.width - 1 ==>
      InImage(img, i + 1) && X(img, i + 1) == X(img, i) + 1 && Y(img, i + 1) == Y(img, i)
    ensures Y(img, i) > 0 ==>
      InImage(img, i - img.width) && X(img, i - img.width) == X(img, i) && Y(img, i - img.width) == Y(img, i) - 1
    ensures Y(img, i) < img.height - 1 ==>
      InImage(img, i + img.width) && X(img, i + img.width) == X(img, i) && Y(img, i + img.width) == Y(img, i) + 1
  {
    RowBound(img, i);
    var w, x, y := img.width, X(img, i), Y(img, i);
    NextRow(w, y, y - 1);
    NextRow(w, y, y + 1);
    StepTo(img, i - 1, x - 1, y);
    StepTo(img, i + 1, x + 1, y);
    StepTo(img, i - w, x, y - 1);
    StepTo(img, i + w, x, y + 1);
  }

  predicate Neighbour(img: Image, i: int, j: int) {
    || (j == i - 1 && X(img, i) > 0)
    || (j == i + 1 && X(img, i) < img.width - 1)
    || (j == i - img.width && Y(img, i) > 0)
    || (j == i + img.width && Y(img, i) < img.height - 1)
  }

  /** The neighbour tests of the flood fill are exactly 4-adjacency. */
  lemma NeighbourIsAdjacent(img: Image, i: int, j: int)
    requires InImage(img, i) && InImage(img, j)
    ensures Neighbour(img, i, j) <==> Adjacent(img, i, j)
  {
    StepFrom(img, i);
    RowBound(img, i);
    RowBound(img, j);
    if Adjacent(img, i, j) { AdjacentIsNeighbour(img, i, j); }
  }

  lemma AdjacentIsNeighbour(img: Image, i: int, j: int)
    requires InImage(img, i) && InImage(img, j) && Adjacent(img, i, j)
    ensures Neighbour(img, i, j)
  {
    RowBound(img, i);
    RowBound(img, j);
    NextRow(img.width, Y(img, i), Y(img, j));
  }

  lemma NextRow(w: int, y: int, v: int)
    ensures v == y + 1 ==> v * w == y * w + w
    ensures v == y - 1 ==> v * w == y * w - w
    ensures v == y ==> v * w == y * w
  {
  }

  // Sequences without repetition.

  ghost predicate Distinct<T>(s: seq<T>) {
    forall i, j :: 0 <= i < j < |s| ==> s[i] != s[j]
  }

  ghost function Elements<T>(s: seq<T>): set<T> { set x | x in s }

  lemma {:induction false} DistinctCardinality<T>(s: seq<T>)
    requires Distinct(s)
    ensures |Elements(s)| == |s|
  {
    if s != [] {
      var n := |s| - 1;
      DistinctCardinality(s[..n]);
      assert Elements(s) == Elements(s[..n]) + {s[n]};
      assert s[n] !in s[..n];
    }
  }

  /** The numbers below `n`. */
  ghost function Below(n: nat): (s: set<int>)
    ensures |s| == n && forall i :: i in s <==> 0 <= i < n
  {
    if n == 0 then {} else Below(n - 1) + {n - 1}
  }

  lemma DistinctBounded(s: seq<int>, n: nat)
    requires Distinct(s) && forall i :: 0 <= i < |s| ==> 0 <= s[i] < n
    ensures |s| <= n
  {
    DistinctCardinality(s);
    SubsetCardinality(Elements(s), Below(n));
  }
}
