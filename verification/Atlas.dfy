/** `planAtlas` of `tools/Character part lab/character_lab_runtime.js`: shelf packing with a width search. */
module Atlas {
  import opened Basics
  import Sorting

  /** A JavaScript number as far as `Number.isInteger` tells it apart. */
  datatype Number = Whole(n: int) | NotWhole

  datatype Rectangle = Rectangle(id: string, width: Number, height: Number)

  datatype Sprite = Sprite(id: string, width: int, height: int)

  datatype Placement = Placement(sprite: Sprite, x: int, y: int)

  datatype Options = Options(padding: int, minWidth: int, targetHeight: int, maxDimension: int)

  const DEFAULTS := Options(4, 512, 2048, 4096)

  datatype Plan =
    | Atlas(width: int, height: int, padding: int, placements: seq<Placement>)
    | NoSprites
    | InvalidSprite(id: string)
    | SpriteTooLarge(id: string)
    | WidthLimit(limit: int)
    | HeightLimit(limit: int)

  function Max(a: int, b: int): int { if a > b then a else b }

  function Min(a: int, b: int): int { if a < b then a else b }

  // Powers of two.

  function Pow2(k: nat): (r: nat)
    ensures r >= 1
  {
    if k == 0 then 1 else 2 * Pow2(k - 1)
  }

  /** `nextPow2`. */
  method NextPow2(value: int) returns (result: nat)
    ensures result == LeastPow2(value)
  {
    result := 1;
    ghost var k: nat := 0;
    while result < value
      invariant result == Pow2(k) && (k == 0 || Pow2(k - 1) < value)
      decreases value - result
    {
      result := result * 2;
      k := k + 1;
    }
    LeastPow2Is(value, k);
  }

  ghost predicate IsLeastPow2(value: int, result: nat) {
    && (exists k :: result == Pow2(k))
    && result >= value
    && (forall k: nat :: Pow2(k) >= value ==> result <= Pow2(k))
  }

  function Exponent(value: int, k: nat): (e: nat)
    requires k == 0 || Pow2(k - 1) < value
    ensures Pow2(e) >= value && (e == 0 || Pow2(e - 1) < value)
    decreases value - Pow2(k)
  {
    if Pow2(k) >= value then k else Exponent(value, k + 1)
  }

  /** The least power of two that is at least `value`. */
  function LeastPow2(value: int): nat { Pow2(Exponent(value, 0)) }

  lemma {:induction false} Pow2Grows(j: nat, k: nat)
    requires j <= k
    ensures 1 <= Pow2(j) <= Pow2(k) && (j < k ==> Pow2(j) < Pow2(k))
  {
    if j < k { Pow2Grows(j, k - 1); } else if j > 0 { Pow2Grows(j - 1, k - 1); }
  }

  lemma LeastPow2Is(value: int, k: nat)
    requires Pow2(k) >= value && (k == 0 || Pow2(k - 1) < value)
    ensures LeastPow2(value) == Pow2(k) && IsLeastPow2(value, Pow2(k))
  {
    var e := Exponent(value, 0);
    if e < k { Pow2Grows(e, k - 1); }
    if k < e { Pow2Grows(k, e - 1); }
    forall j: nat | Pow2(j) >= value ensures Pow2(k) <= Pow2(j) {
      if j < k { Pow2Grows(j, k - 1); } else { Pow2Grows(k, j); }
    }
  }

  lemma LeastPow2Correct(value: int)
    ensures IsLeastPow2(value, LeastPow2(value)) && LeastPow2(value) >= 1
    ensures value >= 1 ==> LeastPow2(value) < 2 * value
  {
    LeastPow2Is(value, Exponent(value, 0));
  }

  // Packing at a given width.

  datatype Cursor = Cursor(x: int, y: int, rowHeight: int, maxY: int)

  /** Where the next sprite goes: at the cursor, or at the start of a new shelf when it does not fit. */
  function Shelf(c: Cursor, s: Sprite, padding: int, width: int): Cursor {
    if c.x + s.width + padding > width && c.x > padding
    then Cursor(padding, c.y + c.rowHeight + padding, 0, c.maxY)
    else c
  }

  function Advance(c: Cursor, s: Sprite, padding: int): Cursor {
    Cursor(c.x + s.width + padding, c.y, Max(c.rowHeight, s.height), Max(c.maxY, c.y + s.height + padding))
  }

  datatype Packing = Packing(placements: seq<Placement>, cursor: Cursor)

  /** A packing with one more sprite behind its cursor. */
  function Placed(p: Packing, s: Sprite, padding: int, width: int): Packing {
    var at := Shelf(p.cursor, s, padding, width);
    Packing(p.placements + [Placement(s, at.x, at.y)], Advance(at, s, padding))
  }

  function Pack(sprites: seq<Sprite>, padding: int, width: int): Packing {
    if sprites == [] then Packing([], Cursor(padding, padding, 0, padding))
    else Placed(Pack(sprites[..|sprites| - 1], padding, width), sprites[|sprites| - 1], padding, width)
  }

  function PackedHeight(sprites: seq<Sprite>, padding: int, width: int): nat {
    LeastPow2(Max(64, Pack(sprites, padding, width).cursor.maxY))
  }

  /** `packAt`. */
  method PackAt(sprites: seq<Sprite>, padding: int, width: int) returns (placements: seq<Placement>, height: nat)
    ensures placements == Pack(sprites, padding, width).placements
    ensures height == PackedHeight(sprites, padding, width)
  {
    var x, y, rowHeight, maxY := padding, padding, 0, padding;
    placements := [];
    var i := 0;
    while i < |sprites|
      invariant 0 <= i <= |sprites|
      invariant Pack(sprites[..i], padding, width) == Packing(placements, Cursor(x, y, rowHeight, maxY))
    {
      var sprite := sprites[i];
      assert sprites[..i + 1][..i] == sprites[..i];
      if x + sprite.width + padding > width && x > padding {
        x := padding;
        y := y + rowHeight + padding;
        rowHeight := 0;
      }
      placements := placements + [Placement(sprite, x, y)];
      x := x + sprite.width + padding;
      rowHeight := Max(rowHeight, sprite.height);
      maxY := Max(maxY, y + sprite.height + padding);
      i := i + 1;
    }
    assert sprites[..i] == sprites;
    height := NextPow2(Max(64, maxY));
  }

  // Soundness of one packing.

  /** At least `gap` apart along one of the axes. */
  ghost predicate Apart(a: Placement, b: Placement, gap: int) {
    || a.x + a.sprite.width + gap <= b.x
    || b.x + b.sprite.width + gap <= a.x
    || a.y + a.sprite.height + gap <= b.y
    || b.y + b.sprite.height + gap <= a.y
  }

  ghost predicate Inside(p: Placement, width: int, height: int, gap: int) {
    gap <= p.x && p.x + p.sprite.width + gap <= width && gap <= p.y && p.y + p.sprite.height + gap <= height
  }

  ghost predicate Fits(sprites: seq<Sprite>, padding: int, width: int) {
    forall s :: s in sprites ==> s.width > 0 && s.height > 0 && s.width + 2 * padding <= width
  }

  /** A placed sprite lies on an earlier shelf, or on this one to the left of the cursor. */
  ghost predicate Behind(p: Placement, c: Cursor, padding: int) {
    || p.y + p.sprite.height + padding <= c.y
    || (p.y == c.y && p.sprite.height <= c.rowHeight && p.x + p.sprite.width + padding <= c.x)
  }

  ghost predicate SoundSoFar(p: Packing, sprites: seq<Sprite>, padding: int, width: int) {
    && |p.placements| == |sprites| && p.cursor.x >= padding && p.cursor.y >= padding && p.cursor.rowHeight >= 0
    && (forall i :: 0 <= i < |sprites| ==> p.placements[i].sprite == sprites[i])
    && (forall i :: 0 <= i < |sprites| ==>
          Inside(p.placements[i], width, p.cursor.maxY, padding) && Behind(p.placements[i], p.cursor, padding))
    && (forall i, j :: 0 <= i < j < |sprites| ==> Apart(p.placements[i], p.placements[j], padding))
  }

  lemma {:induction false} PackSound(sprites: seq<Sprite>, padding: int, width: int)
    requires padding >= 0 && Fits(sprites, padding, width)
    ensures SoundSoFar(Pack(sprites, padding, width), sprites, padding, width)
  {
    if sprites != [] {
      var n := |sprites| - 1;
      assert sprites[n] in sprites;
      forall t | t in sprites[..n] ensures t in sprites {}
      PackSound(sprites[..n], padding, width);
      PackStep(Pack(sprites[..n], padding, width), sprites[..n], sprites[n], padding, width);
      assert sprites[..n] + [sprites[n]] == sprites;
    }
  }

  lemma PackStep(p: Packing, sprites: seq<Sprite>, s: Sprite, padding: int, width: int)
    requires padding >= 0 && SoundSoFar(p, sprites, padding, width)
    requires s.width > 0 && s.height > 0 && s.width + 2 * padding <= width
    ensures SoundSoFar(Placed(p, s, padding, width), sprites + [s], padding, width)
  {
    var n, at, q := |sprites|, Shelf(p.cursor, s, padding, width), Placed(p, s, padding, width);
    ShelfKeepsBehind(p, sprites, s, padding, width);
    forall i | 0 <= i < n
      ensures q.placements[i] == p.placements[i] && Apart(q.placements[i], q.placements[n], padding)
      ensures Inside(q.placements[i], width, q.cursor.maxY, padding) && Behind(q.placements[i], q.cursor, padding)
    {
      PlaceOne(p.placements[i], at, s, padding, width);
    }
  }

  /** A sprite placed at the cursor stays clear of one that lies behind it. */
  lemma PlaceOne(p: Placement, at: Cursor, s: Sprite, padding: int, width: int)
    requires padding >= 0 && s.width > 0 && s.height > 0 && at.rowHeight >= 0
    requires Behind(p, at, padding) && Inside(p, width, at.maxY, padding)
    ensures Apart(p, Placement(s, at.x, at.y), padding)
    ensures Inside(p, width, Advance(at, s, padding).maxY, padding) && Behind(p, Advance(at, s, padding), padding)
  {
  }

  lemma ShelfKeepsBehind(p: Packing, sprites: seq<Sprite>, s: Sprite, padding: int, width: int)
    requires padding >= 0 && SoundSoFar(p, sprites, padding, width) && s.width > 0 && s.width + 2 * padding <= width
    ensures var at := Shelf(p.cursor, s, padding, width);
      && at.x >= padding && at.y >= padding && at.rowHeight >= 0 && at.maxY == p.cursor.maxY
      && at.x + s.width + padding <= width
      && forall i :: 0 <= i < |sprites| ==> Behind(p.placements[i], at, padding)
  {
  }

  // The search.

  function NextWidth(width: int, limit: int): int { Min(limit, width * 2) }

  /** The widths tried from `width` on: the first good one, or the limit. */
  function Search(sprites: seq<Sprite>, o: Options, width: int): int
    requires width >= 1
    decreases o.maxDimension - width
  {
    if PackedHeight(sprites, o.padding, width) > o.targetHeight && width < o.maxDimension
    then Search(sprites, o, NextWidth(width, o.maxDimension))
    else width
  }

  /** The `n`-th width tried. */
  function Tried(width: int, limit: int, n: nat): int {
    if n == 0 then width else NextWidth(Tried(width, limit, n - 1), limit)
  }

  /** The search stops at the first width that meets the target height, or at the limit. */
  lemma {:induction false} SearchStopsFirst(sprites: seq<Sprite>, o: Options, width: int) returns (n: nat)
    requires width >= 1
    ensures Search(sprites, o, width) == Tried(width, o.maxDimension, n)
    ensures forall m: nat :: m < n ==>
      PackedHeight(sprites, o.padding, Tried(width, o.maxDimension, m)) > o.targetHeight
        && Tried(width, o.maxDimension, m) < o.maxDimension
    ensures PackedHeight(sprites, o.padding, Tried(width, o.maxDimension, n)) <= o.targetHeight
      || Tried(width, o.maxDimension, n) >= o.maxDimension
    decreases o.maxDimension - width
  {
    if PackedHeight(sprites, o.padding, width) > o.targetHeight && width < o.maxDimension {
      var next := NextWidth(width, o.maxDimension);
      var k := SearchStopsFirst(sprites, o, next);
      n := k + 1;
      forall m: nat ensures Tried(width, o.maxDimension, m + 1) == Tried(next, o.maxDimension, m) {
        TriedShift(width, o.maxDimension, m);
      }
      forall m: nat | m < n
        ensures PackedHeight(sprites, o.padding, Tried(width, o.maxDimension, m)) > o.targetHeight
          && Tried(width, o.maxDimension, m) < o.maxDimension
      {
        if m > 0 { assert Tried(width, o.maxDimension, m) == Tried(next, o.maxDimension, m - 1); }
      }
      assert Tried(width, o.maxDimension, k + 1) == Tried(next, o.maxDimension, k);
    } else {
      n := 0;
    }
  }

  lemma {:induction false} TriedShift(width: int, limit: int, m: nat)
    ensures Tried(width, limit, m + 1) == Tried(NextWidth(width, limit), limit, m)
  {
    if m > 0 { TriedShift(width, limit, m - 1); }
  }

  lemma {:induction false} SearchBounds(sprites: seq<Sprite>, o: Options, width: int)
    requires 1 <= width <= o.maxDimension
    ensures width <= Search(sprites, o, width) <= o.maxDimension
    decreases o.maxDimension - width
  {
    if PackedHeight(sprites, o.padding, width) > o.targetHeight && width < o.maxDimension {
      SearchBounds(sprites, o, NextWidth(width, o.maxDimension));
    }
  }

  // The whole plan.

  /** The first complaint of the checking loop, if any. */
  function Complaint(rectangles: seq<Rectangle>, o: Options): Option<Plan> {
    if rectangles == [] then None
    else
      var r := rectangles[0];
      if r.id == "" || r.width.NotWhole? || r.height.NotWhole? || r.width.n <= 0 || r.height.n <= 0 then
        Some(InvalidSprite(r.id))
      else if r.width.n + o.padding * 2 > o.maxDimension || r.height.n + o.padding * 2 > o.maxDimension
      then Some(SpriteTooLarge(r.id))
      else Complaint(rectangles[1..], o)
  }

  function SpriteOf(r: Rectangle): Sprite {
    Sprite(r.id, if r.width.Whole? then r.width.n else 0, if r.height.Whole? then r.height.n else 0)
  }

  function Sprites(rectangles: seq<Rectangle>): seq<Sprite> {
    seq(|rectangles|, i requires 0 <= i < |rectangles| => SpriteOf(rectangles[i]))
  }

  /** Taller first, then wider first, then by the locale's order of the ids. */
  function TallerFirst(idLess: (string, string) -> bool): (Sprite, Sprite) -> bool {
    (a: Sprite, b: Sprite) =>
      a.height > b.height || (a.height == b.height && (a.width > b.width || (a.width == b.width && idLess(a.id, b.id))))
  }

  function Widest(sprites: seq<Sprite>, padding: int): int
    requires sprites != []
  {
    var n := |sprites| - 1;
    var own := sprites[n].width + padding * 2;
    if n == 0 then own else Max(Widest(sprites[..n], padding), own)
  }

  function FirstWidth(sprites: seq<Sprite>, o: Options): nat
    requires sprites != []
  {
    LeastPow2(Max(o.minWidth, Widest(sprites, o.padding)))
  }

  /** The plan for sprites that passed the checks, already sorted. */
  function PlanSorted(sprites: seq<Sprite>, o: Options): Plan
    requires sprites != []
  {
    var first := FirstWidth(sprites, o);
    LeastPow2Correct(Max(o.minWidth, Widest(sprites, o.padding)));
    if first > o.maxDimension then WidthLimit(o.maxDimension)
    else
      var width := Search(sprites, o, first);
      var height := PackedHeight(sprites, o.padding, width);
      if height > o.maxDimension then HeightLimit(o.maxDimension)
      else Atlas(width, height, o.padding, Pack(sprites, o.padding, width).placements)
  }

  function PlanOf(rectangles: seq<Rectangle>, o: Options, idLess: (string, string) -> bool): Plan {
    if rectangles == [] then NoSprites
    else
      var complaint := Complaint(rectangles, o);
      if complaint.Some? then complaint.value
      else
        Sorting.StableSortPermutes(Sprites(rectangles), TallerFirst(idLess));
        PlanSorted(Sorting.StableSort(Sprites(rectangles), TallerFirst(idLess)), o)
  }

  /** `planAtlas`. */
  method PlanAtlas(rectangles: seq<Rectangle>, o: Options, idLess: (string, string) -> bool) returns (plan: Plan)
    ensures plan == PlanOf(rectangles, o, idLess)
  {
    if rectangles == [] { return NoSprites; }
    var i := 0;
    while i < |rectangles|
      invariant 0 <= i <= |rectangles|
      invariant Complaint(rectangles, o) == Complaint(rectangles[i..], o)
    {
      var r := rectangles[i];
      if r.id == "" || r.width.NotWhole? || r.height.NotWhole? || r.width.n <= 0 || r.height.n <= 0 {
        return InvalidSprite(r.id);
      }
      if r.width.n + o.padding * 2 > o.maxDimension || r.height.n + o.padding * 2 > o.maxDimension {
        return SpriteTooLarge(r.id);
      }
      i := i + 1;
    }
    Sorting.StableSortPermutes(Sprites(rectangles), TallerFirst(idLess));
    var sprites := Sorting.StableSort(Sprites(rectangles), TallerFirst(idLess));
    plan := PlanSprites(sprites, o);
  }

  /** The greatest width of a sprite with its padding. */
  method WidestSprite(sprites: seq<Sprite>, padding: int) returns (widest: int)
    requires sprites != []
    ensures widest == Widest(sprites, padding)
  {
    widest := sprites[0].width + padding * 2;
    var i := 1;
    assert sprites[..1][0] == sprites[0];
    while i < |sprites|
      invariant 1 <= i <= |sprites|
      invariant widest == Widest(sprites[..i], padding)
    {
      assert sprites[..i + 1][..i] == sprites[..i];
      widest := Max(widest, sprites[i].width + padding * 2);
      i := i + 1;
    }
    assert sprites[..i] == sprites;
  }

  /** The part of `planAtlas` after the sort. */
  method PlanSprites(sprites: seq<Sprite>, o: Options) returns (plan: Plan)
    requires sprites != []
    ensures plan == PlanSorted(sprites, o)
  {
    var widest := WidestSprite(sprites, o.padding);
    LeastPow2Correct(Max(o.minWidth, widest));
    var first := NextPow2(Max(o.minWidth, widest));
    var width: int := first;
    if width > o.maxDimension { return WidthLimit(o.maxDimension); }
    var placements, height := PackAt(sprites, o.padding, width);
    while height > o.targetHeight && width < o.maxDimension
      invariant 1 <= width <= o.maxDimension
      invariant placements == Pack(sprites, o.padding, width).placements
        && height == PackedHeight(sprites, o.padding, width)
      invariant Search(sprites, o, first) == Search(sprites, o, width)
      decreases o.maxDimension - width
    {
      width := Min(o.maxDimension, width * 2);
      placements, height := PackAt(sprites, o.padding, width);
    }
    if height > o.maxDimension { return HeightLimit(o.maxDimension); }
    plan := Atlas(width, height, o.padding, placements);
  }

  // What a plan guarantees.

  /** Every input once, inside the atlas with the padding to each edge, and any two the padding apart. */
  ghost predicate SoundPlan(plan: Plan, rectangles: seq<Rectangle>, o: Options)
    requires plan.Atlas?
  {
    && |plan.placements| == |rectangles|
    && multiset(PlacedSprites(plan.placements)) == multiset(Sprites(rectangles))
    && (forall i :: 0 <= i < |plan.placements| ==> Inside(plan.placements[i], plan.width, plan.height, o.padding))
    && (forall i, j :: 0 <= i < j < |plan.placements| ==> Apart(plan.placements[i], plan.placements[j], o.padding))
    && (exists k :: plan.height == Pow2(k)) && plan.height >= 64
    && 1 <= plan.width <= o.maxDimension && plan.height <= o.maxDimension
  }

  function PlacedSprites(placements: seq<Placement>): seq<Sprite> {
    seq(|placements|, i requires 0 <= i < |placements| => placements[i].sprite)
  }

  lemma {:induction false} CheckedSprites(rectangles: seq<Rectangle>, o: Options)
    requires Complaint(rectangles, o) == None
    ensures forall s :: s in Sprites(rectangles) ==> s.width > 0 && s.height > 0 && s.id != ""
  {
    if rectangles != [] {
      CheckedSprites(rectangles[1..], o);
      var all, rest := Sprites(rectangles), Sprites(rectangles[1..]);
      forall s | s in all ensures s.width > 0 && s.height > 0 && s.id != "" {
        var i :| 0 <= i < |all| && all[i] == s;
        if i > 0 { assert rest[i - 1] == s; }
      }
    }
  }

  lemma {:induction false} WidestBounds(sprites: seq<Sprite>, padding: int)
    requires sprites != []
    ensures forall s :: s in sprites ==> s.width + padding * 2 <= Widest(sprites, padding)
  {
    var n := |sprites| - 1;
    if n > 0 { WidestBounds(sprites[..n], padding); }
    forall s | s in sprites ensures s.width + padding * 2 <= Widest(sprites, padding) {
      var i :| 0 <= i < |sprites| && sprites[i] == s;
      if i < n { assert sprites[..n][i] == s; }
    }
  }

  /** Shelf packing is sound for every input and every padding that is not negative. */
  lemma PlanIsSound(rectangles: seq<Rectangle>, o: Options, idLess: (string, string) -> bool)
    requires o.padding >= 0
    ensures var plan := PlanOf(rectangles, o, idLess);
      plan.Atlas? ==> SoundPlan(plan, rectangles, o) && plan.padding == o.padding
  {
    var plan := PlanOf(rectangles, o, idLess);
    if plan.Atlas? {
      var list := Sprites(rectangles);
      var sprites := Sorting.StableSort(list, TallerFirst(idLess));
      Sorting.StableSortPermutes(list, TallerFirst(idLess));
      CheckedPlan(rectangles, o, plan);
      CheckedSprites(rectangles, o);
      forall s | s in sprites ensures s.width > 0 && s.height > 0 {
        assert s in multiset(sprites) && s in multiset(list);
      }
      SortedPlanIsSound(sprites, o);
      assert PlacedSprites(plan.placements) == sprites;
    }
  }

  lemma {:induction false} CheckedPlan(rectangles: seq<Rectangle>, o: Options, plan: Plan)
    requires plan.Atlas?
    ensures Complaint(rectangles, o) != Some(plan)
  {
    if rectangles != [] { CheckedPlan(rectangles[1..], o, plan); }
  }

  lemma SortedPlanIsSound(sprites: seq<Sprite>, o: Options)
    requires sprites != [] && o.padding >= 0 && PlanSorted(sprites, o).Atlas?
    requires forall s :: s in sprites ==> s.width > 0 && s.height > 0
    ensures var plan := PlanSorted(sprites, o);
      && |plan.placements| == |sprites|
      && (forall i :: 0 <= i < |sprites| ==> plan.placements[i].sprite == sprites[i])
      && (forall i :: 0 <= i < |sprites| ==> Inside(plan.placements[i], plan.width, plan.height, o.padding))
      && (forall i, j :: 0 <= i < j < |sprites| ==> Apart(plan.placements[i], plan.placements[j], o.padding))
      && (exists k :: plan.height == Pow2(k)) && plan.height >= 64
      && 1 <= plan.width <= o.maxDimension && plan.height <= o.maxDimension
  {
    var width := PlanSorted(sprites, o).width;
    PlannedWidth(sprites, o);
    PackSound(sprites, o.padding, width);
    PlannedHeight(sprites, o);
    var p := Pack(sprites, o.padding, width);
    forall i | 0 <= i < |sprites| ensures Inside(p.placements[i], width, PlanSorted(sprites, o).height, o.padding) {
      assert Inside(p.placements[i], width, p.cursor.maxY, o.padding);
    }
  }

  /** The width that was found takes every sprite. */
  lemma PlannedWidth(sprites: seq<Sprite>, o: Options)
    requires sprites != [] && PlanSorted(sprites, o).Atlas? && forall s :: s in sprites ==> s.width > 0 && s.height > 0
    ensures var plan := PlanSorted(sprites, o);
      1 <= plan.width <= o.maxDimension && Fits(sprites, o.padding, plan.width)
  {
    LeastPow2Correct(Max(o.minWidth, Widest(sprites, o.padding)));
    SearchBounds(sprites, o, FirstWidth(sprites, o));
    WidestBounds(sprites, o.padding);
  }

  /** The height is a power of two of at least 64 that covers the packing. */
  lemma PlannedHeight(sprites: seq<Sprite>, o: Options)
    requires sprites != [] && PlanSorted(sprites, o).Atlas?
    ensures var plan := PlanSorted(sprites, o);
      && plan.width == Search(sprites, o, FirstWidth(sprites, o))
      && plan.placements == Pack(sprites, o.padding, plan.width).placements
      && Pack(sprites, o.padding, plan.width).cursor.maxY <= plan.height <= o.maxDimension
      && (exists k :: plan.height == Pow2(k)) && plan.height >= 64
  {
    LeastPow2Correct(Max(o.minWidth, Widest(sprites, o.padding)));
    LeastPow2Correct(Max(64, Pack(sprites, o.padding, PlanSorted(sprites, o).width).cursor.maxY));
  }

  /** Two equal squares, and options that leave them plenty of room. */
  predicate IsSquare(r: Rectangle, side: int) { r.width == Whole(side) && r.height == Whole(side) }

  function RoomFor(padding: int, side: int): Options { Options(padding, 2 * side, 4 * side + 200, 4 * side + 200) }

  lemma SquaresFit(sprites: seq<Sprite>, padding: int, side: int)
    requires padding < 0 && side == 2 - padding && |sprites| == 2
    requires forall s :: s in sprites ==> s.width == side && s.height == side
    ensures 2 * side <= FirstWidth(sprites, RoomFor(padding, side)) <= 4 * side + 200
  {
    assert sprites[0] in sprites && sprites[1] in sprites;
    var one := sprites[..1];
    assert sprites[..2] == sprites && one[0] == sprites[0];
    assert Widest(one, padding) == side + 2 * padding && Widest(sprites, padding) == side + 2 * padding;
    LeastPow2Correct(2 * side);
  }

  lemma SquaresOverlap(sprites: seq<Sprite>, padding: int, side: int)
    requires padding < 0 && side == 2 - padding && |sprites| == 2
    requires forall s :: s in sprites ==> s.width == side && s.height == side
    ensures var plan := PlanSorted(sprites, RoomFor(padding, side));
      plan.Atlas? && |plan.placements| == 2 && !Apart(plan.placements[0], plan.placements[1], 0)
  {
    var o := RoomFor(padding, side);
    SquaresFit(sprites, padding, side);
    var first := FirstWidth(sprites, o);
    SearchBounds(sprites, o, first);
    var width := Search(sprites, o, first);
    PackTwo(sprites, padding, side, width);
    assert sprites[0] in sprites && sprites[1] in sprites;
    LeastPow2Correct(Max(64, Pack(sprites, padding, width).cursor.maxY));
    assert PackedHeight(sprites, padding, width) <= o.maxDimension;
    assert PlanSorted(sprites, o).placements == Pack(sprites, padding, width).placements;
  }

  lemma PackTwo(sprites: seq<Sprite>, padding: int, side: int, width: int)
    requires padding < 0 && side == 2 - padding && |sprites| == 2 && width >= 2 * side
    requires forall s :: s in sprites ==> s.width == side && s.height == side
    ensures var p := Pack(sprites, padding, width);
      p.placements == [Placement(sprites[0], padding, padding), Placement(sprites[1], side + 2 * padding, padding)]
      && p.cursor.maxY <= side
  {
    var one := sprites[..1];
    assert one[..0] == [] && one[0] == sprites[0] && sprites[0] in sprites && sprites[1] in sprites;
    assert Pack(one[..0], padding, width) == Packing([], Cursor(padding, padding, 0, padding));
    var p := Pack(one, padding, width);
    assert p.placements == [Placement(sprites[0], padding, padding)];
    assert p.cursor == Cursor(side + 2 * padding, padding, side, Max(padding, side + 2 * padding));
  }

  lemma SquaresAccepted(rectangles: seq<Rectangle>, padding: int, side: int)
    requires padding < 0 && side == 2 - padding && |rectangles| == 2
    requires forall i :: 0 <= i < 2 ==> rectangles[i].id != "" && IsSquare(rectangles[i], side)
    ensures Complaint(rectangles, RoomFor(padding, side)) == None
  {
    assert rectangles[1..][1..] == [];
    assert Complaint(rectangles[1..], RoomFor(padding, side)) == None;
  }

  /**
   With any negative padding the plan of two squares that are two larger than it makes them overlap, so the
   condition on the padding is needed.
   */
  lemma NegativePaddingOverlaps(rectangles: seq<Rectangle>, padding: int, idLess: (string, string) -> bool)
    requires padding < 0 && |rectangles| == 2
    requires forall i :: 0 <= i < 2 ==> rectangles[i].id != "" && IsSquare(rectangles[i], 2 - padding)
    ensures var plan := PlanOf(rectangles, RoomFor(padding, 2 - padding), idLess);
      plan.Atlas? && |plan.placements| == 2 && !Apart(plan.placements[0], plan.placements[1], 0)
  {
    var side := 2 - padding;
    var sorted := Sorting.StableSort(Sprites(rectangles), TallerFirst(idLess));
    SquaresAccepted(rectangles, padding, side);
    SortedSquares(rectangles, side, idLess);
    SquaresOverlap(sorted, padding, side);
    PlanOfAccepted(rectangles, RoomFor(padding, side), idLess);
  }

  lemma PlanOfAccepted(rectangles: seq<Rectangle>, o: Options, idLess: (string, string) -> bool)
    requires rectangles != [] && Complaint(rectangles, o) == None
    ensures var sorted := Sorting.StableSort(Sprites(rectangles), TallerFirst(idLess));
      sorted != [] && PlanOf(rectangles, o, idLess) == PlanSorted(sorted, o)
  {
    Sorting.StableSortPermutes(Sprites(rectangles), TallerFirst(idLess));
  }

  lemma SortedSquares(rectangles: seq<Rectangle>, side: int, idLess: (string, string) -> bool)
    requires |rectangles| == 2 && forall i :: 0 <= i < 2 ==> IsSquare(rectangles[i], side)
    ensures var sprites := Sorting.StableSort(Sprites(rectangles), TallerFirst(idLess));
      |sprites| == 2 && forall s :: s in sprites ==> s.width == side && s.height == side
  {
    var list := Sprites(rectangles);
    Sorting.StableSortPermutes(list, TallerFirst(idLess));
    var sprites := Sorting.StableSort(list, TallerFirst(idLess));
    forall s | s in sprites ensures s.width == side && s.height == side {
      assert s in multiset(sprites) && s in multiset(list);
    }
  }

  // The plan does not depend on the order of the input.

  ghost predicate StrictOrder(idLess: (string, string) -> bool) {
    && (forall a :: !idLess(a, a))
    && (forall a, b, c :: idLess(a, b) && idLess(b, c) ==> idLess(a, c))
    && (forall a, b :: a != b ==> idLess(a, b) || idLess(b, a))
  }

  lemma TallerFirstCompares(idLess: (string, string) -> bool)
    requires StrictOrder(idLess)
    ensures Sorting.IsComparator(TallerFirst(idLess))
    ensures forall a, b :: !TallerFirst(idLess)(a, b) && !TallerFirst(idLess)(b, a) ==> a == b
  {
    var less := TallerFirst(idLess);
    forall x: Sprite ensures !less(x, x) {
      assert !idLess(x.id, x.id);
    }
    forall x: Sprite, y: Sprite, z: Sprite | less(x, y) && less(y, z) ensures less(x, z) {
      if x.height == y.height == z.height && x.width == y.width == z.width {
        assert idLess(x.id, y.id) && idLess(y.id, z.id);
      }
    }
    forall x: Sprite, y: Sprite | !less(x, y) && !less(y, x) ensures x == y {
      assert x.id == y.id || idLess(x.id, y.id) || idLess(y.id, x.id);
    }
    forall x: Sprite, y: Sprite, z: Sprite | !less(x, y) && !less(y, z) ensures !less(x, z) {
      assert x == y || less(y, x);
      assert y == z || less(z, y);
      assert !less(x, x);
    }
  }

  /** Reordering accepted input changes nothing in the plan. */
  lemma OrderDoesNotMatter(a: seq<Rectangle>, b: seq<Rectangle>, o: Options, idLess: (string, string) -> bool)
    requires StrictOrder(idLess) && multiset(a) == multiset(b)
    requires Complaint(a, o) == None && Complaint(b, o) == None
    ensures PlanOf(a, o, idLess) == PlanOf(b, o, idLess)
  {
    var less := TallerFirst(idLess);
    TallerFirstCompares(idLess);
    SpritesPermute(a, b);
    Sorting.StableSortPermutes(Sprites(a), less);
    Sorting.StableSortPermutes(Sprites(b), less);
    Sorting.StableSortSorted(Sprites(a), less);
    Sorting.StableSortSorted(Sprites(b), less);
    Sorting.SortedUnique(Sorting.StableSort(Sprites(a), less), Sorting.StableSort(Sprites(b), less), less);
    assert |multiset(a)| == |a| && |multiset(b)| == |b|;
  }

  lemma WithoutOne<T>(b: seq<T>, k: nat)
    requires k < |b|
    ensures multiset(b) == multiset(b[..k] + b[k + 1..]) + multiset{b[k]}
    ensures multiset(b[..k] + b[k + 1..]) == multiset(b) - multiset{b[k]}
  {
    assert b == b[..k] + [b[k]] + b[k + 1..];
  }

  lemma CancelOne<T>(a: seq<T>, b: seq<T>) returns (k: nat)
    requires a != [] && multiset(a) == multiset(b)
    ensures k < |b| && b[k] == a[0] && multiset(a[1..]) == multiset(b[..k] + b[k + 1..])
  {
    assert a[0] in multiset(b);
    k :| 0 <= k < |b| && b[k] == a[0];
    WithoutFirst(a);
    WithoutOne(b, k);
  }

  lemma WithoutFirst<T>(a: seq<T>)
    requires a != []
    ensures multiset(a[1..]) == multiset(a) - multiset{a[0]}
  {
    assert a == [a[0]] + a[1..];
  }

  lemma SpritesWithout(b: seq<Rectangle>, k: nat)
    requires k < |b|
    ensures multiset(Sprites(b)) == multiset(Sprites(b[..k] + b[k + 1..])) + multiset{SpriteOf(b[k])}
  {
    WithoutOne(Sprites(b), k);
    assert Sprites(b)[..k] + Sprites(b)[k + 1..] == Sprites(b[..k] + b[k + 1..]);
  }

  lemma {:induction false} SpritesPermute(a: seq<Rectangle>, b: seq<Rectangle>)
    requires multiset(a) == multiset(b)
    ensures multiset(Sprites(a)) == multiset(Sprites(b))
    decreases |a|
  {
    if a == [] {
      assert |multiset(b)| == |b|;
    } else {
      var k := CancelOne(a, b);
      assert a[..0] + a[1..] == a[1..];
      SpritesWithout(a, 0);
      SpritesWithout(b, k);
      SpritesPermute(a[1..], b[..k] + b[k + 1..]);
    }
  }
}
