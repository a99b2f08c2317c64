/** `detectComponents` and `extractComponent` of `tools/asset_slicer/asset_slicer_runtime.js`. */
module Slicer {
  import opened Basics
  import opened Paths
  import opened Pixels
  import Sorting

  datatype Component = Component(minX: int, minY: int, maxX: int, maxY: int, count: nat, pixels: seq<int>)

  /** The box contains every pixel, and each of its four sides touches one. */
  ghost predicate TightBox(img: Image, c: Component) {
    && (forall i :: i in c.pixels ==> c.minX <= X(img, i) <= c.maxX && c.minY <= Y(img, i) <= c.maxY)
    && (exists i :: i in c.pixels && X(img, i) == c.minX)
    && (exists i :: i in c.pixels && X(img, i) == c.maxX)
    && (exists i :: i in c.pixels && Y(img, i) == c.minY)
    && (exists i :: i in c.pixels && Y(img, i) == c.maxY)
  }

  /** One maximal 4-connected set of solid pixels, each listed once, starting from the first in raster order. */
  ghost predicate IsComponent(img: Image, c: Component) {
    && c.pixels != [] && Distinct(c.pixels) && c.count == |c.pixels|
    && Solid(img, c.pixels[0])
    && Elements(c.pixels) == ClassOf(img, c.pixels[0])
    && (forall i :: i in c.pixels ==> c.pixels[0] <= i)
    && TightBox(img, c)
  }

  /** The components of at least `min` pixels, each once: a solid pixel is in one exactly when its class is that big. */
  ghost predicate ExactComponents(img: Image, min: nat, cs: seq<Component>) {
    && (forall k :: 0 <= k < |cs| ==> IsComponent(img, cs[k]) && cs[k].count >= min)
    && (forall k, l :: 0 <= k < l < |cs| ==> Elements(cs[k].pixels) !! Elements(cs[l].pixels))
    && (forall i {:trigger ClassOf(img, i)} :: Solid(img, i) ==>
          ((exists k :: 0 <= k < |cs| && i in cs[k].pixels) <==> |ClassOf(img, i)| >= min))
  }

  /** Larger components first; equal ones in the raster order of their first pixels. */
  ghost predicate Ordered(cs: seq<Component>) {
    forall k, l :: 0 <= k < l < |cs| && cs[k].pixels != [] && cs[l].pixels != [] ==>
      cs[k].count > cs[l].count || (cs[k].count == cs[l].count && cs[k].pixels[0] < cs[l].pixels[0])
  }

  ghost predicate Marked(visited: seq<bool>, s: set<int>) {
    forall i :: 0 <= i < |visited| ==> (visited[i] <==> i in s)
  }

  // One flood fill.

  /** The fill from `start`: what has been popped (`pixels`) and what waits (`stack`). */
  ghost predicate Filling(img: Image, seen: set<int>, start: int, pixels: seq<int>, stack: seq<int>) {
    && Distinct(pixels + stack)
    && start in pixels + stack
    && (forall i :: i in pixels + stack ==> Solid(img, i) && Reaches(Grid(img), start, i) && i !in seen)
  }

  /** Every solid neighbour of `i` has been pushed. */
  ghost predicate Spread(img: Image, i: int, reached: set<int>) {
    forall j :: Solid(img, j) && Adjacent(img, i, j) ==> j in reached
  }

  /** One of the four neighbour tests: push `j` if it is inside, new and solid. */
  method Consider(img: Image, visited: array<bool>, ghost seen: set<int>, ghost start: int, ghost pixels: seq<int>,
                  stack: seq<int>, inside: bool, j: int)
    returns (pushed: seq<int>)
    requires WellFormed(img) && visited.Length == Area(img)
    requires pixels != [] && Filling(img, seen, start, pixels, stack)
    requires Closed(Grid(img), seen)
    requires Marked(visited[..], seen + Elements(pixels + stack))
    requires inside ==> InImage(img, j) && Adjacent(img, pixels[|pixels| - 1], j)
    modifies visited
    ensures Filling(img, seen, start, pixels, pushed)
    ensures Marked(visited[..], seen + Elements(pixels + pushed))
    ensures Elements(pixels + stack) <= Elements(pixels + pushed)
    ensures inside && Solid(img, j) ==> j in Elements(pixels + pushed)
  {
    pushed := stack;
    if inside && !visited[j] && Solid(img, j) {
      ghost var last := pixels[|pixels| - 1];
      assert last in pixels + stack;
      ReachesStep(Grid(img), start, last, j);
      assert visited[..][j] == visited[j];
      visited[j] := true;
      pushed := stack + [j];
      assert pixels + pushed == (pixels + stack) + [j];
      assert Elements(pixels + pushed) == Elements(pixels + stack) + {j};
    } else if inside && Solid(img, j) {
      NotSeenBefore(img, seen, pixels[|pixels| - 1], j, pixels + stack);
      assert visited[..][j];
    }
  }

  lemma NotSeenBefore(img: Image, seen: set<int>, i: int, j: int, reached: seq<int>)
    requires Closed(Grid(img), seen) && Solid(img, i) && Solid(img, j) && Adjacent(img, i, j) && i !in seen
    ensures j !in seen
  {
    assert Adjacent(img, j, i);
    assert Grid(img).step(j, i) && Grid(img).point(i) && Grid(img).point(j);
  }

  /** The pops and pushes of one round, without the box. */
  method PushNeighbours(img: Image, visited: array<bool>, ghost seen: set<int>, ghost start: int,
      ghost pixels: seq<int>,
                        stack: seq<int>, index: int)
    returns (pushed: seq<int>)
    requires WellFormed(img) && visited.Length == Area(img)
    requires pixels != [] && pixels[|pixels| - 1] == index && InImage(img, index)
    requires Filling(img, seen, start, pixels, stack) && Closed(Grid(img), seen)
    requires Marked(visited[..], seen + Elements(pixels + stack))
    modifies visited
    ensures Filling(img, seen, start, pixels, pushed)
    ensures Marked(visited[..], seen + Elements(pixels + pushed))
    ensures Elements(pixels + stack) <= Elements(pixels + pushed)
    ensures Spread(img, index, Elements(pixels + pushed))
  {
    var w := img.width;
    var cx, cy := X(img, index), Y(img, index);
    FourSides(img, index);
    pushed := PushSides(img, visited, seen, start, pixels, stack, index, cx > 0, cx < w - 1, cy > 0,
      cy < img.height - 1);
    SidesSpread(img, index, cx > 0, cx < w - 1, cy > 0, cy < img.height - 1, Elements(pixels + pushed));
  }

  /** The side is inside the image, if it is said to be. */
  ghost predicate Side(img: Image, i: int, inside: bool, j: int) { inside ==> InImage(img, j) && Adjacent(img, i, j) }

  /** A solid pixel on a side that is inside has been pushed. */
  ghost predicate Reached(img: Image, inside: bool, j: int, reached: set<int>) {
    inside && Solid(img, j) ==> j in reached
  }

  lemma FourSides(img: Image, i: int)
    requires WellFormed(img) && InImage(img, i)
    ensures Side(img, i, X(img, i) > 0, i - 1) && Side(img, i, X(img, i) < img.width - 1, i + 1)
    ensures Side(img, i, Y(img, i) > 0, i - img.width) && Side(img, i, Y(img, i) < img.height - 1, i + img.width)
  {
    StepFrom(img, i);
  }

  /** The four tests, one after the other. */
  method PushSides(img: Image, visited: array<bool>, ghost seen: set<int>, ghost start: int, ghost pixels: seq<int>,
                   stack: seq<int>, index: int, left: bool, right: bool, up: bool, down: bool)
    returns (pushed: seq<int>)
    requires WellFormed(img) && visited.Length == Area(img)
    requires pixels != [] && pixels[|pixels| - 1] == index
    requires Side(img, index, left, index - 1) && Side(img, index, right, index + 1)
    requires Side(img, index, up, index - img.width) && Side(img, index, down, index + img.width)
    requires Filling(img, seen, start, pixels, stack) && Closed(Grid(img), seen)
    requires Marked(visited[..], seen + Elements(pixels + stack))
    modifies visited
    ensures Filling(img, seen, start, pixels, pushed)
    ensures Marked(visited[..], seen + Elements(pixels + pushed))
    ensures Elements(pixels + stack) <= Elements(pixels + pushed)
    ensures Reached(img, left, index - 1, Elements(pixels + pushed))
      && Reached(img, right, index + 1, Elements(pixels + pushed))
    ensures Reached(img, up, index - img.width, Elements(pixels + pushed))
    ensures Reached(img, down, index + img.width, Elements(pixels + pushed))
  {
    pushed := Consider(img, visited, seen, start, pixels, stack, left, index - 1);
    pushed := Consider(img, visited, seen, start, pixels, pushed, right, index + 1);
    pushed := Consider(img, visited, seen, start, pixels, pushed, up, index - img.width);
    pushed := Consider(img, visited, seen, start, pixels, pushed, down, index + img.width);
  }

  lemma SidesSpread(img: Image, i: int, left: bool, right: bool, up: bool, down: bool, reached: set<int>)
    requires InImage(img, i)
    requires left == (X(img, i) > 0) && right == (X(img, i) < img.width - 1)
    requires up == (Y(img, i) > 0) && down == (Y(img, i) < img.height - 1)
    requires Reached(img, left, i - 1, reached) && Reached(img, right, i + 1, reached)
    requires Reached(img, up, i - img.width, reached) && Reached(img, down, i + img.width, reached)
    ensures Spread(img, i, reached)
  {
    forall j | Solid(img, j) && Adjacent(img, i, j) ensures j in reached {
      NeighbourIsAdjacent(img, i, j);
    }
  }

  datatype Box = Box(minX: int, minY: int, maxX: int, maxY: int)

  function Grow(box: Box, x: int, y: int): Box {
    Box(if x < box.minX then x else box.minX, if y < box.minY then y else box.minY,
        if x > box.maxX then x else box.maxX, if y > box.maxY then y else box.maxY)
  }

  /** The bounding box of the pixels; before the first pop it is the start pixel's. */
  ghost predicate BoxOf(img: Image, points: seq<int>, box: Box) {
    && (forall i :: i in points ==> box.minX <= X(img, i) <= box.maxX && box.minY <= Y(img, i) <= box.maxY)
    && (exists i :: i in points && X(img, i) == box.minX)
    && (exists i :: i in points && X(img, i) == box.maxX)
    && (exists i :: i in points && Y(img, i) == box.minY)
    && (exists i :: i in points && Y(img, i) == box.maxY)
  }

  lemma GrowBox(img: Image, points: seq<int>, box: Box, index: int)
    requires BoxOf(img, points, box)
    ensures BoxOf(img, points + [index], Grow(box, X(img, index), Y(img, index)))
  {
    var after := points + [index];
    assert index in after && forall i :: i in points ==> i in after;
    var a :| a in points && X(img, a) == box.minX;
    var b :| b in points && X(img, b) == box.maxX;
    var c :| c in points && Y(img, c) == box.minY;
    var d :| d in points && Y(img, d) == box.maxY;
  }

  /** When nothing waits, the popped pixels are the whole class of the start. */
  lemma FilledIsClass(img: Image, seen: set<int>, start: int, pixels: seq<int>)
    requires Filling(img, seen, start, pixels, [])
    requires forall i :: i in pixels ==> Spread(img, i, Elements(pixels))
    ensures Elements(pixels) == ClassOf(img, start)
  {
    assert pixels + [] == pixels;
    forall i, j | i in Elements(pixels) && Grid(img).point(i) && Grid(img).point(j) && Grid(img).step(i, j)
      ensures j in Elements(pixels)
    {
      assert Spread(img, i, Elements(pixels));
    }
    forall j ensures j in Elements(pixels) <==> j in ClassOf(img, start) {
      if j in ClassOf(img, start) { ClosedKeepsReachable(Grid(img), Elements(pixels), start, j); }
    }
  }

  ghost predicate FillState(img: Image, visited: seq<bool>, seen: set<int>, start: int,
                            pixels: seq<int>, stack: seq<int>, box: Box) {
    && Filling(img, seen, start, pixels, stack)
    && Marked(visited, seen + Elements(pixels + stack))
    && (if pixels == [] then stack == [start] else pixels[0] == start)
    && (forall i :: i in pixels ==> Spread(img, i, Elements(pixels + stack)))
    && BoxOf(img, [start] + pixels, box)
  }

  /** The body of the fill loop: pop, record, grow the box, push the neighbours. */
  method FillRound(img: Image, visited: array<bool>, ghost seen: set<int>, ghost start: int,
                   earlier: seq<int>, stack: seq<int>, earlierBox: Box)
    returns (pixels: seq<int>, pushed: seq<int>, box: Box)
    requires WellFormed(img) && visited.Length == Area(img) && Closed(Grid(img), seen)
    requires stack != [] && FillState(img, visited[..], seen, start, earlier, stack, earlierBox)
    modifies visited
    ensures FillState(img, visited[..], seen, start, pixels, pushed, box)
    ensures |pixels| == |earlier| + 1
  {
    var index := stack[|stack| - 1];
    var popped := stack[..|stack| - 1];
    pixels := earlier + [index];
    PopKeeps(img, seen, start, earlier, popped, index, stack);
    box := Grow(earlierBox, X(img, index), Y(img, index));
    GrowBoxStep(img, start, earlier, index, box);
    pushed := PushNeighbours(img, visited, seen, start, pixels, popped, index);
    SpreadKept(img, earlier, Elements(earlier + stack), Elements(pixels + pushed));
  }

  /** The fill loop of `detectComponents`. */
  method Fill(img: Image, visited: array<bool>, ghost seen: set<int>, start: int) returns (c: Component)
    requires WellFormed(img) && visited.Length == Area(img)
    requires Solid(img, start) && start !in seen && Closed(Grid(img), seen)
    requires Marked(visited[..], seen)
    requires forall i :: Solid(img, i) && i < start ==> i in seen
    modifies visited
    ensures Marked(visited[..], seen + Elements(c.pixels))
    ensures IsComponent(img, c) && c.pixels[0] == start && Elements(c.pixels) !! seen
  {
    visited[start] := true;
    var stack := [start];
    var box := Box(X(img, start), Y(img, start), X(img, start), Y(img, start));
    var pixels: seq<int> := [];
    StartFilling(img, seen, start);
    while stack != []
      invariant FillState(img, visited[..], seen, start, pixels, stack, box)
      decreases Area(img) - |pixels|
    {
      pixels, stack, box := FillRound(img, visited, seen, start, pixels, stack, box);
      FillBounded(img, seen, start, pixels, stack);
    }
    c := Component(box.minX, box.minY, box.maxX, box.maxY, |pixels|, pixels);
    FilledIsComponent(img, visited[..], seen, start, box, c);
  }

  lemma FilledIsComponent(img: Image, visited: seq<bool>, seen: set<int>, start: int, box: Box, c: Component)
    requires FillState(img, visited, seen, start, c.pixels, [], box)
    requires c == Component(box.minX, box.minY, box.maxX, box.maxY, |c.pixels|, c.pixels)
    requires forall i :: Solid(img, i) && i < start ==> i in seen
    ensures Marked(visited, seen + Elements(c.pixels))
    ensures IsComponent(img, c) && c.pixels[0] == start && Elements(c.pixels) !! seen
  {
    var pixels := c.pixels;
    assert pixels + [] == pixels;
    FilledIsClass(img, seen, start, pixels);
    BoxIsTight(img, start, pixels, box, c);
    assert start in pixels;
  }

  lemma StartFilling(img: Image, seen: set<int>, start: int)
    requires Solid(img, start) && start !in seen
    ensures Filling(img, seen, start, [], [start]) && Elements([] + [start]) == {start}
    ensures BoxOf(img, [start] + [], Box(X(img, start), Y(img, start), X(img, start), Y(img, start)))
  {
    ReachesSelf(Grid(img), start);
    assert [] + [start] == [start] && [start] + [] == [start] && start in [start];
  }

  lemma GrowBoxStep(img: Image, start: int, pixels: seq<int>, index: int, grown: Box)
    requires exists box :: BoxOf(img, [start] + pixels, box) && grown == Grow(box, X(img, index), Y(img, index))
    ensures BoxOf(img, [start] + (pixels + [index]), grown)
  {
    var box :| BoxOf(img, [start] + pixels, box) && grown == Grow(box, X(img, index), Y(img, index));
    GrowBox(img, [start] + pixels, box, index);
    assert [start] + pixels + [index] == [start] + (pixels + [index]);
  }

  lemma BoxIsTight(img: Image, start: int, pixels: seq<int>, box: Box, c: Component)
    requires pixels != [] && pixels[0] == start && BoxOf(img, [start] + pixels, box)
    requires c == Component(box.minX, box.minY, box.maxX, box.maxY, |pixels|, pixels)
    ensures TightBox(img, c)
  {
    assert forall i :: i in [start] + pixels <==> i in pixels;
  }

  lemma PopKeeps(img: Image, seen: set<int>, start: int, pixels: seq<int>, popped: seq<int>, index: int,
      stack: seq<int>)
    requires stack == popped + [index] && Filling(img, seen, start, pixels, stack)
    ensures Filling(img, seen, start, pixels + [index], popped)
    ensures Elements((pixels + [index]) + popped) == Elements(pixels + stack)
    ensures InImage(img, index)
  {
    var a, b := pixels + stack, (pixels + [index]) + popped;
    assert index in a;
    forall i ensures i in a <==> i in b {}
    var n := |pixels|;
    forall i, j | 0 <= i < j < |b| ensures b[i] != b[j] {
      var p := if i < n then i else if i == n then |a| - 1 else i - 1;
      var q := if j < n then j else if j == n then |a| - 1 else j - 1;
      assert b[i] == a[p] && b[j] == a[q] && p != q;
    }
  }

  lemma SpreadKept(img: Image, pixels: seq<int>, before: set<int>, after: set<int>)
    requires forall i :: i in pixels ==> Spread(img, i, before)
    requires before <= after
    ensures forall i :: i in pixels ==> Spread(img, i, after)
  {
    forall i | i in pixels ensures Spread(img, i, after) {
      assert Spread(img, i, before);
    }
  }

  lemma FillBounded(img: Image, seen: set<int>, start: int, pixels: seq<int>, stack: seq<int>)
    requires Filling(img, seen, start, pixels, stack)
    ensures |pixels| + |stack| <= Area(img)
  {
    var s := pixels + stack;
    forall i | 0 <= i < |s| ensures 0 <= s[i] < Area(img) {
      assert s[i] in s;
    }
    DistinctBounded(s, Area(img));
  }

  // The raster scan.

  ghost predicate Listed(cs: seq<Component>, i: int) {
    exists k :: 0 <= k < |cs| && i in cs[k].pixels
  }

  /** What the scan knows when every pixel below `upto` has been looked at. */
  ghost predicate Scanned(img: Image, min: nat, seen: set<int>, found: seq<Component>, upto: int) {
    && Closed(Grid(img), seen)
    && (forall i :: i in seen ==> Solid(img, i))
    && (forall i :: Solid(img, i) && i < upto ==> i in seen)
    && Kept(img, min, seen, found, upto)
    && InScanOrder(found)
    && Covered(img, min, seen, found)
  }

  ghost predicate Covered(img: Image, min: nat, seen: set<int>, found: seq<Component>) {
    forall i :: i in seen ==> (Listed(found, i) <==> |ClassOf(img, i)| >= min)
  }

  ghost predicate Kept(img: Image, min: nat, seen: set<int>, found: seq<Component>, upto: int) {
    forall k :: 0 <= k < |found| ==>
      IsComponent(img, found[k]) && found[k].count >= min && Elements(found[k].pixels) <= seen
        && found[k].pixels[0] < upto
  }

  ghost predicate InScanOrder(found: seq<Component>) {
    forall k, l :: 0 <= k < l < |found| ==>
      && Elements(found[k].pixels) !! Elements(found[l].pixels)
      && found[k].pixels != [] && found[l].pixels != [] && found[k].pixels[0] < found[l].pixels[0]
  }

  lemma SkipPixel(img: Image, min: nat, seen: set<int>, found: seq<Component>, start: int)
    requires Scanned(img, min, seen, found, start) && (start in seen || !Solid(img, start))
    ensures Scanned(img, min, seen, found, start + 1)
  {
  }

  lemma AddClosed(img: Image, seen: set<int>, c: Component)
    requires Closed(Grid(img), seen) && IsComponent(img, c)
    ensures Closed(Grid(img), seen + Elements(c.pixels))
  {
    var s := seen + Elements(c.pixels);
    var g := Grid(img);
    forall i, j | i in s && g.point(i) && g.point(j) && g.step(i, j) ensures j in s {
      if i in Elements(c.pixels) {
        ReachesStep(g, c.pixels[0], i, j);
        assert j in ClassOf(img, c.pixels[0]);
      }
    }
  }

  /** The class of every pixel of a component is the component's pixels. */
  lemma ComponentClass(img: Image, c: Component, i: int)
    requires IsComponent(img, c) && i in c.pixels
    ensures ClassOf(img, i) == Elements(c.pixels) && |ClassOf(img, i)| == c.count
  {
    assert i in Elements(c.pixels);
    SameClass(img, c.pixels[0], i);
    DistinctCardinality(c.pixels);
  }

  lemma AddListed(img: Image, min: nat, seen: set<int>, found: seq<Component>, c: Component, i: int)
    requires IsComponent(img, c) && Elements(c.pixels) !! seen
    requires forall k :: 0 <= k < |found| ==> Elements(found[k].pixels) <= seen
    requires i in seen ==> (Listed(found, i) <==> |ClassOf(img, i)| >= min)
    requires i in seen + Elements(c.pixels)
    ensures Listed(if c.count >= min then found + [c] else found, i) <==> |ClassOf(img, i)| >= min
  {
    var more := found + [c];
    assert more[|found|] == c;
    if i in Elements(c.pixels) {
      ComponentClass(img, c, i);
      assert i !in seen && forall k :: 0 <= k < |found| ==> i !in Elements(found[k].pixels);
    } else {
      assert i !in c.pixels;
      if Listed(found, i) {
        var k :| 0 <= k < |found| && i in found[k].pixels;
        assert more[k] == found[k];
      }
      if Listed(more, i) {
        var k :| 0 <= k < |more| && i in more[k].pixels;
        assert k < |found| && more[k] == found[k];
      }
    }
  }

  lemma AddSolid(img: Image, c: Component)
    requires IsComponent(img, c)
    ensures forall i :: i in Elements(c.pixels) ==> Solid(img, i)
  {
    forall i | i in Elements(c.pixels) ensures Solid(img, i) {
      ReachedIsPoint(Grid(img), c.pixels[0], i);
    }
  }

  lemma AddKept(img: Image, min: nat, seen: set<int>, found: seq<Component>, c: Component)
    requires IsComponent(img, c) && c.count >= min && Elements(c.pixels) !! seen
    requires Kept(img, min, seen, found, c.pixels[0]) && InScanOrder(found)
    ensures Kept(img, min, seen + Elements(c.pixels), found + [c], c.pixels[0] + 1) && InScanOrder(found + [c])
  {
    var more := found + [c];
    forall k, l | 0 <= k < l < |more|
      ensures Elements(more[k].pixels) !! Elements(more[l].pixels)
      ensures more[k].pixels != [] && more[l].pixels != [] && more[k].pixels[0] < more[l].pixels[0]
    {
      if l == |found| {
        assert Elements(found[k].pixels) <= seen;
      }
    }
  }

  lemma KeptLater(img: Image, min: nat, seen: set<int>, found: seq<Component>, upto: int, more: set<int>)
    requires Kept(img, min, seen, found, upto)
    ensures Kept(img, min, seen + more, found, upto + 1)
  {
  }

  lemma AddCovered(img: Image, min: nat, seen: set<int>, found: seq<Component>, c: Component)
    requires IsComponent(img, c) && Elements(c.pixels) !! seen
    requires Kept(img, min, seen, found, c.pixels[0]) && Covered(img, min, seen, found)
    ensures Covered(img, min, seen + Elements(c.pixels), if c.count >= min then found + [c] else found)
  {
    var more := if c.count >= min then found + [c] else found;
    forall i | i in seen + Elements(c.pixels) ensures Listed(more, i) <==> |ClassOf(img, i)| >= min {
      AddListed(img, min, seen, found, c, i);
    }
  }

  lemma AddComponent(img: Image, min: nat, seen: set<int>, found: seq<Component>, start: int, c: Component)
    requires Scanned(img, min, seen, found, start)
    requires IsComponent(img, c) && c.pixels[0] == start && Elements(c.pixels) !! seen
    ensures Scanned(img, min, seen + Elements(c.pixels), if c.count >= min then found + [c] else found, start + 1)
  {
    AddClosed(img, seen, c);
    AddSolid(img, c);
    AddCovered(img, min, seen, found, c);
    KeptLater(img, min, seen, found, start, Elements(c.pixels));
    if c.count >= min { AddKept(img, min, seen, found, c); }
    assert start in Elements(c.pixels);
  }

  lemma RightAfterScan(img: Image, min: nat, seen: set<int>, found: seq<Component>)
    requires Scanned(img, min, seen, found, Area(img))
    ensures ExactComponents(img, min, found)
  {
    forall i | Solid(img, i)
      ensures (exists k :: 0 <= k < |found| && i in found[k].pixels) <==> |ClassOf(img, i)| >= min
    {
      assert i in seen;
      assert Listed(found, i) <==> |ClassOf(img, i)| >= min;
    }
  }

  // Sorting the result.

  function MorePixels(): (Component, Component) -> bool { (a: Component, b: Component) => a.count > b.count }

  lemma PermutedMembers(img: Image, min: nat, found: seq<Component>, sorted: seq<Component>)
    requires ExactComponents(img, min, found) && multiset(sorted) == multiset(found)
    ensures forall k :: 0 <= k < |sorted| ==> IsComponent(img, sorted[k]) && sorted[k].count >= min
  {
    SameMembers(sorted, found);
    forall k | 0 <= k < |sorted| ensures IsComponent(img, sorted[k]) && sorted[k].count >= min {
      assert sorted[k] in found;
    }
  }

  lemma PermutedDisjoint(img: Image, min: nat, found: seq<Component>, sorted: seq<Component>, k: nat, l: nat)
    requires ExactComponents(img, min, found) && multiset(sorted) == multiset(found)
    requires k < l < |sorted|
    ensures Elements(sorted[k].pixels) !! Elements(sorted[l].pixels)
  {
    SameMembers(sorted, found);
    NoDuplicates(img, min, found);
    if sorted[k] == sorted[l] { Twice(sorted, k, l); }
    assert sorted[k] in found && sorted[l] in found;
    var a :| 0 <= a < |found| && found[a] == sorted[k];
    var b :| 0 <= b < |found| && found[b] == sorted[l];
    assert a < b || b < a;
  }

  lemma SortKeepsExact(img: Image, min: nat, found: seq<Component>)
    requires ExactComponents(img, min, found)
    ensures ExactComponents(img, min, Sorting.StableSort(found, MorePixels()))
  {
    var sorted := Sorting.StableSort(found, MorePixels());
    Sorting.StableSortPermutes(found, MorePixels());
    PermutedMembers(img, min, found, sorted);
    forall k, l | 0 <= k < l < |sorted| ensures Elements(sorted[k].pixels) !! Elements(sorted[l].pixels) {
      PermutedDisjoint(img, min, found, sorted, k, l);
    }
    PermutedListed(img, min, found, sorted);
  }

  lemma PermutedListed(img: Image, min: nat, found: seq<Component>, sorted: seq<Component>)
    requires ExactComponents(img, min, found) && multiset(sorted) == multiset(found)
    ensures forall i {:trigger ClassOf(img, i)} :: Solid(img, i) ==>
      ((exists k :: 0 <= k < |sorted| && i in sorted[k].pixels) <==> |ClassOf(img, i)| >= min)
  {
    SameMembers(sorted, found);
    forall i | Solid(img, i)
      ensures (exists k :: 0 <= k < |sorted| && i in sorted[k].pixels) <==> |ClassOf(img, i)| >= min
    {
      assert Listed(found, i) <==> |ClassOf(img, i)| >= min;
      ListedAlike(sorted, found, i);
      ListedAlike(found, sorted, i);
    }
  }

  lemma ListedAlike(a: seq<Component>, b: seq<Component>, i: int)
    requires forall c :: c in a ==> c in b
    ensures Listed(a, i) ==> Listed(b, i)
  {
    if Listed(a, i) {
      var k :| 0 <= k < |a| && i in a[k].pixels;
      assert a[k] in b;
      var l :| 0 <= l < |b| && b[l] == a[k];
    }
  }

  lemma SameMembers<T>(a: seq<T>, b: seq<T>)
    requires multiset(a) == multiset(b)
    ensures forall x :: x in a <==> x in b
  {
    forall x ensures x in a <==> x in b {
      assert x in a <==> x in multiset(a);
      assert x in b <==> x in multiset(b);
    }
  }

  lemma NoDuplicates(img: Image, min: nat, found: seq<Component>)
    requires ExactComponents(img, min, found)
    ensures forall c :: multiset(found)[c] <= 1
  {
    forall k, l | 0 <= k < l < |found| ensures found[k] != found[l] {
      assert Elements(found[k].pixels) !! Elements(found[l].pixels);
      assert found[k].pixels[0] in Elements(found[k].pixels);
    }
    DistinctMultiset(found);
  }

  lemma {:induction false} DistinctMultiset<T>(s: seq<T>)
    requires Distinct(s)
    ensures forall x :: multiset(s)[x] <= 1
  {
    if s != [] {
      var n := |s| - 1;
      DistinctMultiset(s[..n]);
      assert s == s[..n] + [s[n]];
      assert s[n] !in s[..n];
      assert multiset(s[..n])[s[n]] == 0;
    }
  }

  lemma Twice<T>(s: seq<T>, k: nat, l: nat)
    requires k < l < |s| && s[k] == s[l]
    ensures multiset(s)[s[k]] >= 2
  {
    assert s == s[..l] + [s[l]] + s[l + 1..];
    assert s[..l][k] == s[k];
    assert s[k] in multiset(s[..l]);
  }

  lemma SortOrders(img: Image, min: nat, seen: set<int>, found: seq<Component>, upto: int)
    requires Scanned(img, min, seen, found, upto)
    ensures Ordered(Sorting.StableSort(found, MorePixels()))
  {
    var less := MorePixels();
    var sorted := Sorting.StableSort(found, less);
    Sorting.StableSortSorted(found, less);
    forall k, l | 0 <= k < l < |sorted| && sorted[k].pixels != [] && sorted[l].pixels != []
      ensures sorted[k].count > sorted[l].count
        || (sorted[k].count == sorted[l].count && sorted[k].pixels[0] < sorted[l].pixels[0])
    {
      assert !less(sorted[l], sorted[k]);
      if sorted[k].count == sorted[l].count {
        var a, b := Sorting.TiesKeepOrder(found, less, k, l);
      }
    }
  }

  // The entry points.

  function AsPositiveInt(value: int, fallback: nat): nat { if value >= 0 then value else fallback }

  function CutOf(alphaCut: int): nat {
    var n := AsPositiveInt(alphaCut, 0);
    if n > 254 then 254 else n
  }

  function MinimumOf(minPixels: int): nat {
    var n := AsPositiveInt(minPixels, 1);
    if n < 1 then 1 else n
  }

  // What is detected, told on the buffer alone.

  /** A pixel whose alpha is above the cut; a negative cut is 0, and one above 254 is 254. */
  predicate Visible(rgba: Bytes, width: nat, height: nat, alphaCut: int, i: int) {
    && 0 <= i < width * height && 4 * i + 3 < |rgba|
    && rgba[4 * i + 3] > (if alphaCut < 0 then 0 else if alphaCut <= 254 then alphaCut else 254)
  }

  /** One step to the right, left, down or up, without leaving the row sideways. */
  predicate NextTo(width: nat, i: int, j: int)
    requires width > 0
  {
    || (j == i + 1 && i % width != width - 1) || (j == i - 1 && i % width != 0)
    || j == i + width || j == i - width
  }

  ghost predicate IsWalk(rgba: Bytes, width: nat, height: nat, alphaCut: int, p: seq<int>)
    requires width > 0
  {
    && p != [] && (forall k :: 0 <= k < |p| ==> Visible(rgba, width, height, alphaCut, p[k]))
    && (forall k {:trigger p[k]} :: 0 < k < |p| ==> NextTo(width, p[k - 1], p[k]))
  }

  /** Some walk over visible pixels leads from `i` to `j`. */
  ghost predicate Linked(rgba: Bytes, width: nat, height: nat, alphaCut: int, i: int, j: int)
    requires width > 0
  {
    exists p :: IsWalk(rgba, width, height, alphaCut, p) && p[0] == i && p[|p| - 1] == j
  }

  /** The pixels of a component are what is linked to any of them, and its box is as tight as it can be. */
  ghost predicate IsIsland(rgba: Bytes, width: nat, height: nat, alphaCut: int, c: Component)
    requires width > 0
  {
    && c.pixels != [] && c.count == |c.pixels| && Distinct(c.pixels)
    && (forall i :: i in c.pixels ==> Visible(rgba, width, height, alphaCut, i) && c.pixels[0] <= i)
    && (forall i, j :: i in c.pixels ==> (j in c.pixels <==> Linked(rgba, width, height, alphaCut, i, j)))
    && (forall i :: i in c.pixels ==> c.minX <= i % width <= c.maxX && c.minY <= i / width <= c.maxY)
    && (exists i :: i in c.pixels && i % width == c.minX) && (exists i :: i in c.pixels && i % width == c.maxX)
    && (exists i :: i in c.pixels && i / width == c.minY) && (exists i :: i in c.pixels && i / width == c.maxY)
  }

  /**
   The components are islands with at least as many pixels as asked for, which is at least one, and every visible
   pixel outside them is on an island with fewer.
   */
  ghost predicate Islands(rgba: Bytes, width: nat, height: nat, alphaCut: int, minPixels: int, cs: seq<Component>)
    requires width > 0
  {
    && (forall k :: 0 <= k < |cs| ==> IsIsland(rgba, width, height, alphaCut, cs[k]))
    && (forall k :: 0 <= k < |cs| ==> cs[k].count >= (if minPixels <= 1 then 1 else minPixels))
    && (forall i :: Visible(rgba, width, height, alphaCut, i) && !Listed(cs, i) ==>
          minPixels > 1 && forall s: set<int> ::
            (forall j :: j in s <==> Linked(rgba, width, height, alphaCut, i, j)) ==> |s| < minPixels)
  }

  lemma StepIsNextTo(img: Image, i: int, j: int)
    requires InImage(img, i) && InImage(img, j)
    ensures Adjacent(img, i, j) <==> NextTo(img.width, i, j)
  {
    NeighbourIsAdjacent(img, i, j);
    RowBound(img, i);
    RowBound(img, j);
    NextRow(img.width, Y(img, i), Y(img, i) + 1);
    if j == i + img.width && Y(img, i) >= img.height - 1 { RowsApart(Y(img, i) + 2, img.height, img.width); }
  }

  lemma LinkedIsReaching(img: Image, alphaCut: int, i: int, j: int)
    requires WellFormed(img) && img.cut == CutOf(alphaCut)
    ensures Reaches(Grid(img), i, j) <==> Linked(img.rgba, img.width, img.height, alphaCut, i, j)
  {
    if Reaches(Grid(img), i, j) {
      var p :| IsPath(Grid(img), p) && p[0] == i && p[|p| - 1] == j;
      forall k | 0 < k < |p| ensures NextTo(img.width, p[k - 1], p[k]) {
        assert Solid(img, p[k - 1]) && Solid(img, p[k]) && Grid(img).step(p[k - 1], p[k]);
        StepIsNextTo(img, p[k - 1], p[k]);
      }
      assert IsWalk(img.rgba, img.width, img.height, alphaCut, p);
    }
    if Linked(img.rgba, img.width, img.height, alphaCut, i, j) {
      var p :| IsWalk(img.rgba, img.width, img.height, alphaCut, p) && p[0] == i && p[|p| - 1] == j;
      forall k | 0 < k < |p| ensures Grid(img).step(p[k - 1], p[k]) {
        assert Solid(img, p[k - 1]) && Solid(img, p[k]);
        StepIsNextTo(img, p[k - 1], p[k]);
      }
      assert IsPath(Grid(img), p);
    }
  }

  lemma ClassIsLinked(img: Image, alphaCut: int, i: int, j: int)
    requires WellFormed(img) && img.cut == CutOf(alphaCut)
    ensures j in ClassOf(img, i) <==> Linked(img.rgba, img.width, img.height, alphaCut, i, j)
  {
    LinkedIsReaching(img, alphaCut, i, j);
    if Reaches(Grid(img), i, j) { ReachedIsPoint(Grid(img), i, j); }
  }

  lemma ComponentIsIsland(img: Image, alphaCut: int, c: Component)
    requires WellFormed(img) && img.cut == CutOf(alphaCut) && IsComponent(img, c)
    ensures IsIsland(img.rgba, img.width, img.height, alphaCut, c)
  {
    AddSolid(img, c);
    forall i | i in c.pixels ensures Visible(img.rgba, img.width, img.height, alphaCut, i) {
      assert i in Elements(c.pixels);
    }
    forall i, j | i in c.pixels
      ensures j in c.pixels <==> Linked(img.rgba, img.width, img.height, alphaCut, i, j)
    {
      ComponentClass(img, c, i);
      ClassIsLinked(img, alphaCut, i, j);
      assert j in c.pixels <==> j in Elements(c.pixels);
    }
  }

  lemma SmallIsland(img: Image, alphaCut: int, min: nat, i: int, s: set<int>)
    requires WellFormed(img) && img.cut == CutOf(alphaCut) && |ClassOf(img, i)| < min
    requires forall j :: j in s <==> Linked(img.rgba, img.width, img.height, alphaCut, i, j)
    ensures |s| < min
  {
    forall j ensures j in s <==> j in ClassOf(img, i) { ClassIsLinked(img, alphaCut, i, j); }
    assert s == ClassOf(img, i);
  }

  lemma ClassHasStart(img: Image, i: int)
    requires Solid(img, i)
    ensures |ClassOf(img, i)| >= 1
  {
    ReachesSelf(Grid(img), i);
    assert i in ClassOf(img, i);
  }

  lemma ExactAreIslands(img: Image, alphaCut: int, minPixels: int, cs: seq<Component>)
    requires WellFormed(img) && img.cut == CutOf(alphaCut) && ExactComponents(img, MinimumOf(minPixels), cs)
    ensures Islands(img.rgba, img.width, img.height, alphaCut, minPixels, cs)
  {
    forall k | 0 <= k < |cs| ensures IsIsland(img.rgba, img.width, img.height, alphaCut, cs[k]) {
      ComponentIsIsland(img, alphaCut, cs[k]);
    }
    forall i | Visible(img.rgba, img.width, img.height, alphaCut, i) && !Listed(cs, i)
      ensures minPixels > 1
      ensures forall s: set<int> ::
        (forall j :: j in s <==> Linked(img.rgba, img.width, img.height, alphaCut, i, j)) ==> |s| < minPixels
    {
      assert Solid(img, i);
      ClassHasStart(img, i);
      forall s: set<int> | forall j :: j in s <==> Linked(img.rgba, img.width, img.height, alphaCut, i, j)
        ensures |s| < minPixels
      {
        SmallIsland(img, alphaCut, MinimumOf(minPixels), i, s);
      }
    }
  }

  datatype Detection = SizeMismatch | Found(components: seq<Component>)

  /**
   `detectComponents`: exactly the maximal 4-connected sets of solid pixels that are large enough, with
   tight boxes, largest first.
   */
  method DetectComponents(rgba: Bytes, width: int, height: int, alphaCut: int, minPixels: int) returns (r: Detection)
    ensures r.SizeMismatch? <==> |rgba| != width * height * 4
    ensures r.Found? && (width <= 0 || height <= 0) ==> r.components == []
    ensures r.Found? && width > 0 && height > 0 ==>
      && ExactComponents(Image(rgba, width, height, CutOf(alphaCut)), MinimumOf(minPixels), r.components)
      && Ordered(r.components) && Islands(rgba, width, height, alphaCut, minPixels, r.components)
  {
    if |rgba| != width * height * 4 { return SizeMismatch; }
    var w, h := AsPositiveInt(width, 0), AsPositiveInt(height, 0);
    if w <= 0 || h <= 0 { return Found([]); }
    var img := Image(rgba, w, h, CutOf(alphaCut));
    var min := MinimumOf(minPixels);
    var components := Scan(img, min);
    ExactAreIslands(img, alphaCut, minPixels, components);
    r := Found(components);
  }

  /** The body of the raster loops: fill from a solid pixel that no earlier fill reached. */
  method ScanPixel(img: Image, min: nat, visited: array<bool>, ghost seen: set<int>, found: seq<Component>, start: int)
    returns (ghost more: set<int>, components: seq<Component>)
    requires WellFormed(img) && visited.Length == Area(img) && InImage(img, start)
    requires Marked(visited[..], seen) && Scanned(img, min, seen, found, start)
    modifies visited
    ensures Marked(visited[..], more) && Scanned(img, min, more, components, start + 1)
  {
    more, components := seen, found;
    assert visited[..][start] == visited[start];
    if visited[start] || !Solid(img, start) {
      SkipPixel(img, min, seen, found, start);
    } else {
      var c := Fill(img, visited, seen, start);
      AddComponent(img, min, seen, found, start, c);
      more := seen + Elements(c.pixels);
      if c.count >= min { components := found + [c]; }
    }
  }

  /** The inner raster loop. */
  method ScanRow(img: Image, min: nat, visited: array<bool>, ghost seen: set<int>, found: seq<Component>, y: nat)
    returns (ghost more: set<int>, components: seq<Component>)
    requires WellFormed(img) && visited.Length == Area(img) && y < img.height
    requires Marked(visited[..], seen) && Scanned(img, min, seen, found, y * img.width)
    modifies visited
    ensures Marked(visited[..], more) && Scanned(img, min, more, components, (y + 1) * img.width)
  {
    more, components := seen, found;
    var x := 0;
    while x < img.width
      invariant x <= img.width
      invariant Marked(visited[..], more) && Scanned(img, min, more, components, y * img.width + x)
    {
      AtCoordinates(img, x, y);
      more, components := ScanPixel(img, min, visited, more, components, y * img.width + x);
      x := x + 1;
    }
    NextRow(img.width, y, y + 1);
  }

  /** The raster loops of `detectComponents` and the final sort. */
  method Scan(img: Image, min: nat) returns (components: seq<Component>)
    requires WellFormed(img) && img.height > 0
    ensures ExactComponents(img, min, components) && Ordered(components)
  {
    var visited := new bool[img.width * img.height](_ => false);
    ghost var seen: set<int> := {};
    components := [];
    var y := 0;
    assert 0 * img.width == 0;
    while y < img.height
      invariant y <= img.height
      invariant Marked(visited[..], seen) && Scanned(img, min, seen, components, y * img.width)
    {
      seen, components := ScanRow(img, min, visited, seen, components, y);
      y := y + 1;
    }
    RightAfterScan(img, min, seen, components);
    SortKeepsExact(img, min, components);
    SortOrders(img, min, seen, components, Area(img));
    components := Sorting.StableSort(components, MorePixels());
  }
}
