/** What a plan of `planAtlas` is, told on the rectangles: the shelves, the order, both sides, and the refusals. */
module AtlasTheorems {
  import opened Basics
  import opened Atlas
  import Sorting

  // Shelves.

  function Right(p: Placement): int { p.x + p.sprite.width }

  function Bottom(p: Placement): int { p.y + p.sprite.height }

  /** The next sprite stands beside the one before, if it fits there, and otherwise starts a shelf below everything. */
  ghost predicate NextStands(placed: seq<Placement>, i: nat, padding: int, width: int)
    requires i + 1 < |placed|
  {
    var a, b := placed[i], placed[i + 1];
    if Right(a) + padding + b.sprite.width + padding <= width then b.x == Right(a) + padding && b.y == a.y
    else
      && b.x == padding && (forall k :: 0 <= k <= i ==> Bottom(placed[k]) + padding <= b.y)
      && exists k :: 0 <= k <= i && placed[k].y == a.y && b.y == Bottom(placed[k]) + padding
  }

  /** The sprites in order, from the corner on, shelf by shelf. */
  ghost predicate OnShelves(placed: seq<Placement>, sprites: seq<Sprite>, padding: int, width: int) {
    && |placed| == |sprites| && (forall i :: 0 <= i < |placed| ==> placed[i].sprite == sprites[i])
    && (placed != [] ==> placed[0].x == padding && placed[0].y == padding)
    && forall i: nat :: i + 1 < |placed| ==> NextStands(placed, i, padding, width)
  }

  /** The cursor is behind the last sprite, on a shelf as high as its highest sprite. */
  ghost predicate CursorIs(p: Packing, padding: int) {
    var placed, c := p.placements, p.cursor;
    if placed == [] then c == Cursor(padding, padding, 0, padding)
    else
      && c.x == Right(placed[|placed| - 1]) + padding && c.y == placed[|placed| - 1].y
      && (exists k :: 0 <= k < |placed| && placed[k].y == c.y && placed[k].sprite.height == c.rowHeight)
      && (forall k :: 0 <= k < |placed| ==> Bottom(placed[k]) <= c.y + c.rowHeight)
      && (exists k :: 0 <= k < |placed| && c.maxY == Bottom(placed[k]) + padding)
      && (forall k :: 0 <= k < |placed| ==> Bottom(placed[k]) + padding <= c.maxY)
  }

  lemma PlacedStands(p: Packing, sprites: seq<Sprite>, s: Sprite, padding: int, width: int)
    requires padding >= 0 && s.width > 0 && s.height > 0 && s.width + 2 * padding <= width
    requires forall k :: 0 <= k < |sprites| ==> sprites[k].width > 0 && sprites[k].height > 0
    requires OnShelves(p.placements, sprites, padding, width) && CursorIs(p, padding)
    requires p.placements != [] ==> p.cursor.x > padding
    ensures var q := Placed(p, s, padding, width);
      && CursorIs(q, padding) && q.cursor.x > padding && |q.placements| == |p.placements| + 1
      && q.placements[..|p.placements|] == p.placements && q.placements[|p.placements|].sprite == s
      && (if p.placements == [] then q.placements[0].x == padding && q.placements[0].y == padding
          else NextStands(q.placements, |p.placements| - 1, padding, width))
  {
    var q, n := Placed(p, s, padding, width), |p.placements|;
    var at := Shelf(p.cursor, s, padding, width);
    assert q.placements[n] == Placement(s, at.x, at.y);
    if n > 0 {
      var top :| 0 <= top < n && p.placements[top].y == p.cursor.y
        && p.placements[top].sprite.height == p.cursor.rowHeight;
      var low :| 0 <= low < n && p.cursor.maxY == Bottom(p.placements[low]) + padding;
      assert q.placements[top] == p.placements[top] && q.placements[low] == p.placements[low];
      assert q.placements[n - 1] == p.placements[n - 1];
    }
  }

  lemma StandsStill(placed: seq<Placement>, more: seq<Placement>, i: nat, padding: int, width: int)
    requires i + 1 < |placed| <= |more| && more[..|placed|] == placed && NextStands(placed, i, padding, width)
    ensures NextStands(more, i, padding, width)
  {
    forall k | 0 <= k < |placed| ensures more[k] == placed[k] { assert more[..|placed|][k] == more[k]; }
    if !(Right(placed[i]) + padding + placed[i + 1].sprite.width + padding <= width) {
      var k :| 0 <= k <= i && placed[k].y == placed[i].y && placed[i + 1].y == Bottom(placed[k]) + padding;
      assert more[k].y == more[i].y && more[i + 1].y == Bottom(more[k]) + padding;
    }
  }

  lemma MoreOnShelves(placed: seq<Placement>, more: seq<Placement>, sprites: seq<Sprite>, s: Sprite, padding: int,
      width: int)
    requires OnShelves(placed, sprites, padding, width) && |more| == |placed| + 1 && more[..|placed|] == placed
    requires more[|placed|].sprite == s
    requires if placed == [] then more[0].x == padding && more[0].y == padding
      else NextStands(more, |placed| - 1, padding, width)
    ensures OnShelves(more, sprites + [s], padding, width)
  {
    var n := |placed|;
    forall i | 0 <= i < n ensures more[i] == placed[i] { assert more[..n][i] == more[i]; }
    forall i: nat | i + 1 < |more| ensures NextStands(more, i, padding, width) {
      if i + 1 < n { StandsStill(placed, more, i, padding, width); }
    }
  }

  /** A packing without negative padding puts the sprites on shelves in their order. */
  lemma {:induction false} PackStands(sprites: seq<Sprite>, padding: int, width: int)
    requires padding >= 0 && Fits(sprites, padding, width)
    ensures var p := Pack(sprites, padding, width);
      OnShelves(p.placements, sprites, padding, width) && CursorIs(p, padding)
      && (p.placements != [] ==> p.cursor.x > padding)
  {
    if sprites != [] {
      var n := |sprites| - 1;
      var front, s := sprites[..n], sprites[n];
      assert s in sprites && sprites == front + [s];
      forall t | t in front ensures t in sprites {}
      PackStands(front, padding, width);
      forall k | 0 <= k < n ensures front[k].width > 0 && front[k].height > 0 { assert front[k] in sprites; }
      var p := Pack(front, padding, width);
      PlacedStands(p, front, s, padding, width);
      MoreOnShelves(p.placements, Placed(p, s, padding, width).placements, front, s, padding, width);
    }
  }

  // Both sides.

  /** The least power of two that is at least 64 and leaves the padding below every sprite. */
  ghost predicate HeightIs(placed: seq<Placement>, height: int, padding: int) {
    && (exists k :: height == Pow2(k)) && height >= 64
    && (forall k :: 0 <= k < |placed| ==> Bottom(placed[k]) + padding <= height)
    && (height >= 128 ==> exists k :: 0 <= k < |placed| && 2 * (Bottom(placed[k]) + padding) > height)
  }

  lemma {:induction false} HalfBelow(value: int, k: nat)
    requires Pow2(k) >= 128 && IsLeastPow2(value, Pow2(k))
    ensures 2 * value > Pow2(k)
  {
    assert k > 0 && Pow2(k) == 2 * Pow2(k - 1);
  }

  lemma PackedHeightIs(sprites: seq<Sprite>, padding: int, width: int)
    requires sprites != [] && padding >= 0 && Fits(sprites, padding, width)
    ensures HeightIs(Pack(sprites, padding, width).placements, PackedHeight(sprites, padding, width), padding)
  {
    var p, height := Pack(sprites, padding, width), PackedHeight(sprites, padding, width);
    PackStands(sprites, padding, width);
    LeastPow2Correct(Max(64, p.cursor.maxY));
    if height >= 128 {
      var k :| height == Pow2(k);
      HalfBelow(Max(64, p.cursor.maxY), k);
      var low :| 0 <= low < |p.placements| && p.cursor.maxY == Bottom(p.placements[low]) + padding;
      assert 2 * (Bottom(p.placements[low]) + padding) > height;
    }
  }

  /** The least power of two that is at least the least width asked for and takes every sprite with its padding. */
  ghost predicate FirstWidthIs(sprites: seq<Sprite>, o: Options, first: int) {
    && (exists k :: first == Pow2(k)) && first >= o.minWidth
    && (forall s :: s in sprites ==> s.width + 2 * o.padding <= first)
    && (forall k: nat :: Pow2(k) >= o.minWidth && (forall s :: s in sprites ==> s.width + 2 * o.padding <= Pow2(k)) ==>
          first <= Pow2(k))
  }

  lemma {:induction false} WidestIsOne(sprites: seq<Sprite>, padding: int) returns (s: Sprite)
    requires sprites != []
    ensures s in sprites && Widest(sprites, padding) == s.width + 2 * padding
  {
    var n := |sprites| - 1;
    s := sprites[n];
    if n > 0 && Widest(sprites[..n], padding) > s.width + 2 * padding { s := WidestIsOne(sprites[..n], padding); }
  }

  lemma FirstWidthTells(sprites: seq<Sprite>, o: Options)
    requires sprites != []
    ensures FirstWidthIs(sprites, o, FirstWidth(sprites, o))
  {
    WidestBounds(sprites, o.padding);
    LeastPow2Correct(Max(o.minWidth, Widest(sprites, o.padding)));
    var s := WidestIsOne(sprites, o.padding);
    var first := FirstWidth(sprites, o);
    forall k: nat | Pow2(k) >= o.minWidth && (forall t :: t in sprites ==> t.width + 2 * o.padding <= Pow2(k))
      ensures first <= Pow2(k)
    {
      assert Pow2(k) >= Max(o.minWidth, Widest(sprites, o.padding));
    }
  }

  // Order.

  /** Taller before lower, then wider before narrower, then by id. */
  ghost predicate InOrder(sprites: seq<Sprite>, idLess: (string, string) -> bool) {
    forall i, j :: 0 <= i < j < |sprites| ==>
      var a, b := sprites[i], sprites[j];
      a.height > b.height
        || (a.height == b.height && (a.width > b.width || (a.width == b.width && !idLess(b.id, a.id))))
  }

  lemma SortedInOrder(sprites: seq<Sprite>, idLess: (string, string) -> bool)
    requires StrictOrder(idLess)
    ensures InOrder(Sorting.StableSort(sprites, TallerFirst(idLess)), idLess)
  {
    var less := TallerFirst(idLess);
    var sorted := Sorting.StableSort(sprites, less);
    TallerFirstCompares(idLess);
    Sorting.StableSortSorted(sprites, less);
    forall i, j | 0 <= i < j < |sorted| ensures !less(sorted[j], sorted[i]) {}
  }

  // Refusals.

  /** The rectangle has an id and positive whole sides. */
  predicate Usable(r: Rectangle) { r.id != "" && r.width.Whole? && r.height.Whole? && r.width.n > 0 && r.height.n > 0 }

  /** With the padding on both sides it is within the limit. */
  predicate WithinLimit(r: Rectangle, o: Options)
    requires Usable(r)
  {
    r.width.n + 2 * o.padding <= o.maxDimension && r.height.n + 2 * o.padding <= o.maxDimension
  }

  predicate Acceptable(r: Rectangle, o: Options) { Usable(r) && WithinLimit(r, o) }

  /** The plan is the refusal of the first rectangle that is not acceptable. */
  ghost predicate RefusesFirst(rectangles: seq<Rectangle>, o: Options, plan: Plan) {
    exists i :: RefusesAt(rectangles, o, plan, i)
  }

  ghost predicate RefusesAt(rectangles: seq<Rectangle>, o: Options, plan: Plan, i: int) {
    && 0 <= i < |rectangles| && !Acceptable(rectangles[i], o)
    && (forall j :: 0 <= j < i ==> Acceptable(rectangles[j], o))
    && plan == if Usable(rectangles[i]) then SpriteTooLarge(rectangles[i].id) else InvalidSprite(rectangles[i].id)
  }

  ghost predicate AllAcceptable(rectangles: seq<Rectangle>, o: Options) {
    forall i :: 0 <= i < |rectangles| ==> Acceptable(rectangles[i], o)
  }

  /** The complaint is about the first rectangle that is not acceptable. */
  lemma {:induction false} ComplaintTells(rectangles: seq<Rectangle>, o: Options)
    ensures match Complaint(rectangles, o)
      case None => AllAcceptable(rectangles, o)
      case Some(plan) => RefusesFirst(rectangles, o, plan)
  {
    if rectangles != [] {
      if Acceptable(rectangles[0], o) {
        ComplaintTells(rectangles[1..], o);
        forall i | 0 < i < |rectangles| ensures rectangles[i] == rectangles[1..][i - 1] {}
        if Complaint(rectangles[1..], o).Some? {
          var plan := Complaint(rectangles[1..], o).value;
          var i :| RefusesAt(rectangles[1..], o, plan, i);
          assert RefusesAt(rectangles, o, plan, i + 1);
        }
      } else {
        assert RefusesAt(rectangles, o, Complaint(rectangles, o).value, 0);
      }
    }
  }

  // The plan.

  /** The `n`-th width tried: doubled each time, but never beyond the limit. */
  function Doubled(first: int, limit: int, n: nat): int {
    if n == 0 then first
    else
      var width := 2 * Doubled(first, limit, n - 1);
      if width < limit then width else limit
  }

  lemma {:induction false} TriedIsDoubled(first: int, limit: int, n: nat)
    ensures Tried(first, limit, n) == Doubled(first, limit, n)
  {
    if n > 0 { TriedIsDoubled(first, limit, n - 1); }
  }

  /** At this width the shelves are too high, and a greater width is left to try. */
  ghost predicate TooHigh(sprites: seq<Sprite>, o: Options, width: int) {
    width < o.maxDimension && exists placed, height ::
      OnShelves(placed, sprites, o.padding, width) && HeightIs(placed, height, o.padding) && height > o.targetHeight
  }

  lemma TriedFits(sprites: seq<Sprite>, o: Options, first: int, n: nat)
    requires FirstWidthIs(sprites, o, first) && 1 <= first <= o.maxDimension
    ensures first <= Doubled(first, o.maxDimension, n) <= o.maxDimension
    ensures forall s :: s in sprites ==> s.width + 2 * o.padding <= Doubled(first, o.maxDimension, n)
  {
    DoubledGrows(first, o.maxDimension, n);
  }

  lemma {:induction false} DoubledGrows(first: int, limit: int, n: nat)
    requires 1 <= first <= limit
    ensures first <= Doubled(first, limit, n) <= limit
  {
    if n > 0 { DoubledGrows(first, limit, n - 1); }
  }

  lemma HighIsTooHigh(sprites: seq<Sprite>, o: Options, width: int)
    requires sprites != [] && o.padding >= 0 && Fits(sprites, o.padding, width) && width < o.maxDimension
    requires PackedHeight(sprites, o.padding, width) > o.targetHeight
    ensures TooHigh(sprites, o, width)
  {
    PackStands(sprites, o.padding, width);
    PackedHeightIs(sprites, o.padding, width);
  }

  /** After `n` doublings of the first width the shelves have this height, and every width before was too high. */
  ghost predicate StopsWith(sprites: seq<Sprite>, o: Options, first: int, n: nat, placed: seq<Placement>, height: int) {
    var width := Doubled(first, o.maxDimension, n);
    && OnShelves(placed, sprites, o.padding, width) && HeightIs(placed, height, o.padding)
    && (forall m: nat :: m < n ==> TooHigh(sprites, o, Doubled(first, o.maxDimension, m)))
    && (height <= o.targetHeight || width >= o.maxDimension)
  }

  /** A height beyond the limit is refused. */
  predicate Limited(o: Options, width: int, placed: seq<Placement>, height: int, plan: Plan) {
    plan == if height > o.maxDimension then HeightLimit(o.maxDimension) else Atlas(width, height, o.padding, placed)
  }

  /** The plan of these sprites, when their first width is this one; a width beyond the limit is refused. */
  ghost predicate PlanFrom(sprites: seq<Sprite>, o: Options, first: int, plan: Plan) {
    if first > o.maxDimension then plan == WidthLimit(o.maxDimension)
    else
      exists n: nat, placed, height ::
        StopsWith(sprites, o, first, n, placed, height)
        && Limited(o, Doubled(first, o.maxDimension, n), placed, height, plan)
  }

  lemma TriedIsTooHigh(sprites: seq<Sprite>, o: Options, first: int, m: nat)
    requires sprites != [] && o.padding >= 0 && forall s :: s in sprites ==> s.width > 0 && s.height > 0
    requires FirstWidthIs(sprites, o, first) && 1 <= first <= o.maxDimension
    requires PackedHeight(sprites, o.padding, Tried(first, o.maxDimension, m)) > o.targetHeight
    requires Tried(first, o.maxDimension, m) < o.maxDimension
    ensures TooHigh(sprites, o, Doubled(first, o.maxDimension, m))
  {
    TriedIsDoubled(first, o.maxDimension, m);
    TriedFits(sprites, o, first, m);
    HighIsTooHigh(sprites, o, Doubled(first, o.maxDimension, m));
  }

  lemma SearchTells(sprites: seq<Sprite>, o: Options, first: int) returns (n: nat)
    requires sprites != [] && o.padding >= 0 && forall s :: s in sprites ==> s.width > 0 && s.height > 0
    requires FirstWidthIs(sprites, o, first) && 1 <= first <= o.maxDimension
    ensures var width := Doubled(first, o.maxDimension, n);
      && Search(sprites, o, first) == width
      && StopsWith(sprites, o, first, n, Pack(sprites, o.padding, width).placements,
                   PackedHeight(sprites, o.padding, width))
  {
    n := SearchStopsFirst(sprites, o, first);
    TriedIsDoubled(first, o.maxDimension, n);
    TriedFits(sprites, o, first, n);
    PackStands(sprites, o.padding, Doubled(first, o.maxDimension, n));
    PackedHeightIs(sprites, o.padding, Doubled(first, o.maxDimension, n));
    forall m: nat | m < n ensures TooHigh(sprites, o, Doubled(first, o.maxDimension, m)) {
      TriedIsTooHigh(sprites, o, first, m);
    }
  }

  lemma SortedTells(sprites: seq<Sprite>, o: Options)
    requires sprites != [] && o.padding >= 0 && forall s :: s in sprites ==> s.width > 0 && s.height > 0
    ensures FirstWidthIs(sprites, o, FirstWidth(sprites, o))
    ensures PlanFrom(sprites, o, FirstWidth(sprites, o), PlanSorted(sprites, o))
  {
    var first := FirstWidth(sprites, o);
    FirstWidthTells(sprites, o);
    LeastPow2Correct(Max(o.minWidth, Widest(sprites, o.padding)));
    if first <= o.maxDimension {
      var n := SearchTells(sprites, o, first);
      var width := Doubled(first, o.maxDimension, n);
      var placed, height := Pack(sprites, o.padding, width).placements, PackedHeight(sprites, o.padding, width);
      assert Limited(o, width, placed, height, PlanSorted(sprites, o));
    }
  }

  /** The rectangles as sprites, in their order. */
  ghost predicate Arranged(rectangles: seq<Rectangle>, idLess: (string, string) -> bool, sprites: seq<Sprite>) {
    InOrder(sprites, idLess) && exists list :: AreSprites(rectangles, list) && multiset(sprites) == multiset(list)
  }

  ghost predicate AreSprites(rectangles: seq<Rectangle>, list: seq<Sprite>) {
    |list| == |rectangles| && forall i :: 0 <= i < |list| ==>
      && rectangles[i].width == Whole(list[i].width) && rectangles[i].height == Whole(list[i].height)
      && rectangles[i].id == list[i].id
  }

  /**
   With a padding that is not negative: no rectangles are refused, and so is the first rectangle that is unusable or
   beyond the limit; otherwise the plan puts the sprites in their order on shelves, of the first width that is low
   enough.
   */
  lemma PlanTells(rectangles: seq<Rectangle>, o: Options, idLess: (string, string) -> bool)
    requires o.padding >= 0 && StrictOrder(idLess)
    ensures var plan := PlanOf(rectangles, o, idLess);
      if rectangles == [] then plan == NoSprites
      else if !AllAcceptable(rectangles, o) then RefusesFirst(rectangles, o, plan)
      else
        exists sprites, first ::
          Arranged(rectangles, idLess, sprites) && FirstWidthIs(sprites, o, first) && PlanFrom(sprites, o, first, plan)
  {
    ComplaintTells(rectangles, o);
    if rectangles != [] && Complaint(rectangles, o).None? {
      var sprites := Sorting.StableSort(Sprites(rectangles), TallerFirst(idLess));
      SpritesArranged(rectangles, o, idLess);
      SortedTells(sprites, o);
      PlanOfAccepted(rectangles, o, idLess);
    }
  }

  lemma SpritesArranged(rectangles: seq<Rectangle>, o: Options, idLess: (string, string) -> bool)
    requires StrictOrder(idLess) && Complaint(rectangles, o) == None && AllAcceptable(rectangles, o)
    ensures var sprites := Sorting.StableSort(Sprites(rectangles), TallerFirst(idLess));
      && Arranged(rectangles, idLess, sprites) && |sprites| == |rectangles|
      && forall s :: s in sprites ==> s.width > 0 && s.height > 0
  {
    var sprites := Sorting.StableSort(Sprites(rectangles), TallerFirst(idLess));
    Sorting.StableSortPermutes(Sprites(rectangles), TallerFirst(idLess));
    CheckedSprites(rectangles, o);
    forall s | s in sprites ensures s.width > 0 && s.height > 0 {
      assert s in multiset(sprites) && s in multiset(Sprites(rectangles));
    }
    SortedInOrder(Sprites(rectangles), idLess);
    assert AreSprites(rectangles, Sprites(rectangles));
  }
}
