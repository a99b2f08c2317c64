/** `extractComponent` of the asset slicer, and why slicing a sheet into crops loses nothing. */
module Crops {
  import opened Basics
  import opened Pixels
  import opened Slicer
  import Paths

  datatype Crop = Crop(width: nat, height: nat, data: Bytes)

  const CLEAR: seq<byte> := [0, 0, 0, 0]

  /** The four bytes of one pixel. */
  function Quad(data: Bytes, t: nat): seq<byte>
    requires 4 * t + 3 < |data|
  {
    [data[4 * t], data[4 * t + 1], data[4 * t + 2], data[4 * t + 3]]
  }

  function Grid2(width: nat, height: nat): Image { Image([], width, height, 0) }

  /** Every pixel that lies in the image lies in the component's box. */
  ghost predicate InBox(img: Image, c: Component) {
    && c.minX <= c.maxX && c.minY <= c.maxY
    && forall i :: i in c.pixels ==>
        i >= 0 && (InImage(img, i) ==> c.minX <= X(img, i) <= c.maxX && c.minY <= Y(img, i) <= c.maxY)
  }

  /** Where source pixel `i` goes in a crop of the given width. */
  function Target(img: Image, c: Component, pad: nat, width: nat, i: int): int {
    (Y(img, i) - c.minY + pad) * width + (X(img, i) - c.minX + pad)
  }

  ghost predicate SizedCrop(crop: Crop) {
    crop.width > 0 && |crop.data| == crop.width * crop.height * 4
  }

  /** The crop shows the component's pixels at their places inside the padding, and nothing else. */
  ghost predicate IsCrop(img: Image, c: Component, pad: nat, crop: Crop) {
    && SizedCrop(crop) && WellFormed(img)
    && crop.width == c.maxX - c.minX + 1 + 2 * pad && crop.height == c.maxY - c.minY + 1 + 2 * pad
    && (forall i :: i in c.pixels && InImage(img, i) ==>
          0 <= Target(img, c, pad, crop.width, i) < crop.width * crop.height
          && Quad(crop.data, Target(img, c, pad, crop.width, i)) == Quad(img.rgba, i))
    && (forall t: nat :: t < crop.width * crop.height
          && (forall i :: i in c.pixels && InImage(img, i) ==> Target(img, c, pad, crop.width, i) != t)
          ==> Quad(crop.data, t) == CLEAR)
  }

  lemma TargetInCrop(img: Image, c: Component, pad: nat, width: nat, height: nat, i: int)
    requires InBox(img, c) && i in c.pixels && InImage(img, i)
    requires width == c.maxX - c.minX + 1 + 2 * pad && height == c.maxY - c.minY + 1 + 2 * pad
    ensures var t := Target(img, c, pad, width, i);
      && 0 <= t < width * height
      && X(Grid2(width, height), t) == X(img, i) - c.minX + pad
      && Y(Grid2(width, height), t) == Y(img, i) - c.minY + pad
  {
    AtCoordinates(Grid2(width, height), X(img, i) - c.minX + pad, Y(img, i) - c.minY + pad);
  }

  /** Different pixels have different places, so no write of an extraction hits another one's bytes. */
  lemma TargetInjective(img: Image, c: Component, pad: nat, width: nat, height: nat, i: int, j: int)
    requires InBox(img, c) && i in c.pixels && InImage(img, i) && j in c.pixels && InImage(img, j)
    requires width == c.maxX - c.minX + 1 + 2 * pad && height == c.maxY - c.minY + 1 + 2 * pad
    requires Target(img, c, pad, width, i) == Target(img, c, pad, width, j)
    ensures i == j
  {
    TargetInCrop(img, c, pad, width, height, i);
    TargetInCrop(img, c, pad, width, height, j);
    RowBound(img, i);
    RowBound(img, j);
  }

  // Drawing. The source lists nothing that would keep a pixel inside the crop, so every offset can occur.

  /** A store into a typed array: outside the array it does nothing. */
  function Stored(data: Bytes, k: int, v: byte): (after: Bytes)
    ensures |after| == |data|
  {
    if 0 <= k < |data| then data[k := v] else data
  }

  method Store(data: array<byte>, k: int, v: byte)
    modifies data
    ensures data[..] == Stored(old(data[..]), k, v)
  {
    if 0 <= k < data.Length { data[k] := v; }
  }

  /** Four stores at one pixel's offset change that pixel, if it is there, and no other. */
  lemma QuadStored(before: Bytes, after: Bytes, t: int, v: seq<byte>, count: nat)
    requires |before| == count * 4 && |v| == 4
    requires after ==
      Stored(Stored(Stored(Stored(before, t * 4, v[0]), t * 4 + 1, v[1]), t * 4 + 2, v[2]), t * 4 + 3, v[3])
    ensures forall u: nat :: u < count ==> Quad(after, u) == if u == t then v else Quad(before, u)
  {
  }

  /** The last of the first `n` listed pixels that goes to place `t`. */
  function LastAt(img: Image, c: Component, pad: nat, width: nat, n: nat, t: int): (p: Option<int>)
    requires n <= |c.pixels|
    ensures p.Some? ==> InImage(img, p.value) && p.value in c.pixels[..n] && Target(img, c, pad, width, p.value) == t
    ensures p.None? ==> forall k :: 0 <= k < n && InImage(img, c.pixels[k]) ==>
      Target(img, c, pad, width, c.pixels[k]) != t
  {
    if n == 0 then None
    else if InImage(img, c.pixels[n - 1]) && Target(img, c, pad, width, c.pixels[n - 1]) == t then Some(c.pixels[n - 1])
    else LastAt(img, c, pad, width, n - 1, t)
  }

  function Painted(img: Image, p: Option<int>): seq<byte>
    requires WellFormed(img) && (p.Some? ==> InImage(img, p.value))
  {
    if p.Some? then Quad(img.rgba, p.value) else CLEAR
  }

  /** What the first `n` listed pixels have put into the buffer. */
  ghost predicate Drawn(img: Image, c: Component, pad: nat, width: nat, height: nat, data: Bytes, n: nat)
    requires WellFormed(img) && n <= |c.pixels|
  {
    |data| == width * height * 4
    && forall t: nat :: t < width * height ==> Quad(data, t) == Painted(img, LastAt(img, c, pad, width, n, t))
  }

  lemma DrawOne(img: Image, c: Component, pad: nat, width: nat, height: nat, before: Bytes, after: Bytes, n: nat)
    requires WellFormed(img) && n < |c.pixels| && |after| == |before|
    requires Drawn(img, c, pad, width, height, before, n)
    requires if InImage(img, c.pixels[n]) then
        forall u: nat :: u < width * height ==>
          Quad(after, u) ==
            if u == Target(img, c, pad, width, c.pixels[n]) then Quad(img.rgba, c.pixels[n]) else Quad(before, u)
      else after == before
    ensures Drawn(img, c, pad, width, height, after, n + 1)
  {
  }

  /** The buffer shows, at each place, the last listed pixel that goes there. */
  ghost predicate Extracted(img: Image, c: Component, pad: nat, crop: Crop)
    requires WellFormed(img)
  {
    && SizedCrop(crop)
    && crop.width == c.maxX - c.minX + 1 + 2 * pad && crop.height == c.maxY - c.minY + 1 + 2 * pad
    && Drawn(img, c, pad, crop.width, crop.height, crop.data, |c.pixels|)
  }

  /** `extractComponent`, for any component with a proper box: its pixels may lie anywhere. */
  method ExtractComponent(img: Image, c: Component, padding: int) returns (crop: Crop)
    requires WellFormed(img) && c.minX <= c.maxX && c.minY <= c.maxY
    ensures Extracted(img, c, AsPositiveInt(padding, 0), crop)
    ensures InBox(img, c) ==> IsCrop(img, c, AsPositiveInt(padding, 0), crop)
  {
    var pad := AsPositiveInt(padding, 0);
    var width, height := c.maxX - c.minX + 1 + pad * 2, c.maxY - c.minY + 1 + pad * 2;
    ProductNonnegative(width, height);
    var data := new byte[width * height * 4](_ => 0);
    NothingDrawn(img, c, pad, width, height, data[..]);
    var n := 0;
    while n < |c.pixels|
      invariant n <= |c.pixels|
      invariant Drawn(img, c, pad, width, height, data[..], n)
    {
      DrawPixel(img, c, pad, width, height, data, n);
      n := n + 1;
    }
    crop := Crop(width, height, data[..]);
    if InBox(img, c) { ExtractedIsCrop(img, c, pad, crop); }
  }

  lemma NothingDrawn(img: Image, c: Component, pad: nat, width: nat, height: nat, data: Bytes)
    requires WellFormed(img) && |data| == width * height * 4 && forall k :: 0 <= k < |data| ==> data[k] == 0
    ensures Drawn(img, c, pad, width, height, data, 0)
  {
  }

  /** The body of the loop. */
  method DrawPixel(img: Image, c: Component, pad: nat, width: nat, height: nat, data: array<byte>, n: nat)
    requires WellFormed(img) && n < |c.pixels| && Drawn(img, c, pad, width, height, data[..], n)
    modifies data
    ensures Drawn(img, c, pad, width, height, data[..], n + 1)
  {
    ghost var before := data[..];
    if InImage(img, c.pixels[n]) {
      StorePixel(img, c.pixels[n], Target(img, c, pad, width, c.pixels[n]), data, width * height);
    }
    DrawOne(img, c, pad, width, height, before, data[..], n);
  }

  /** The four assignments of the loop. */
  method StorePixel(img: Image, sourceIndex: nat, target: int, data: array<byte>, count: nat)
    requires WellFormed(img) && InImage(img, sourceIndex) && data.Length == count * 4
    modifies data
    ensures forall u: nat :: u < count ==>
      Quad(data[..], u) == if u == target then Quad(img.rgba, sourceIndex) else Quad(old(data[..]), u)
  {
    var s, t := sourceIndex * 4, target * 4;
    ghost var before := data[..];
    Store(data, t, img.rgba[s]);
    Store(data, t + 1, img.rgba[s + 1]);
    Store(data, t + 2, img.rgba[s + 2]);
    Store(data, t + 3, img.rgba[s + 3]);
    QuadStored(before, data[..], target, Quad(img.rgba, sourceIndex), count);
  }

  /** With its pixels in its box, the crop of a component is that component and nothing else. */
  lemma ExtractedIsCrop(img: Image, c: Component, pad: nat, crop: Crop)
    requires WellFormed(img) && InBox(img, c) && Extracted(img, c, pad, crop)
    ensures IsCrop(img, c, pad, crop)
  {
    forall i | i in c.pixels && InImage(img, i)
      ensures 0 <= Target(img, c, pad, crop.width, i) < crop.width * crop.height
        && Quad(crop.data, Target(img, c, pad, crop.width, i)) == Quad(img.rgba, i)
    {
      TargetInCrop(img, c, pad, crop.width, crop.height, i);
      OnlyWriter(img, c, pad, crop.width, crop.height, i);
    }
    forall t: nat | t < crop.width * crop.height
      && (forall i :: i in c.pixels && InImage(img, i) ==> Target(img, c, pad, crop.width, i) != t)
      ensures Quad(crop.data, t) == CLEAR
    {
      assert LastAt(img, c, pad, crop.width, |c.pixels|, t).None?;
    }
  }

  /** The pixel of the sheet that belongs at column `x`, row `y` of the crop, if the component has it. */
  predicate BelongsAt(img: Image, c: Component, pad: nat, x: nat, y: nat, i: int) {
    && i in c.pixels && 0 <= x + c.minX - pad < img.width && 0 <= y + c.minY - pad < img.height
    && i == (y + c.minY - pad) * img.width + (x + c.minX - pad)
  }

  /** The bytes of the pixel at place `t`. */
  lemma PlaceBytes(data: Bytes, t: nat)
    requires 4 * t + 3 < |data|
    ensures data[4 * t..4 * t + 4] == Quad(data, t)
  {
  }

  lemma PlaceInCrop(crop: Crop, x: nat, y: nat)
    requires SizedCrop(crop) && x < crop.width && y < crop.height
    ensures var t := y * crop.width + x; 0 <= t < crop.width * crop.height && 4 * t + 3 < |crop.data|
  {
    AtCoordinates(Grid2(crop.width, crop.height), x, y);
  }

  lemma BelongingShown(img: Image, c: Component, pad: nat, crop: Crop, x: nat, y: nat, i: int)
    requires IsCrop(img, c, pad, crop) && InBox(img, c) && x < crop.width && y < crop.height
    requires BelongsAt(img, c, pad, x, y, i)
    ensures InImage(img, i) && 0 <= y * crop.width + x < crop.width * crop.height
    ensures Quad(crop.data, y * crop.width + x) == Quad(img.rgba, i)
  {
    PlaceInCrop(crop, x, y);
    AtCoordinates(img, x + c.minX - pad, y + c.minY - pad);
    assert Target(img, c, pad, crop.width, i) == y * crop.width + x;
  }

  /** Column by column and row by row: the component's pixel that lies there in the sheet, or nothing. */
  lemma CropTells(img: Image, c: Component, pad: nat, crop: Crop, x: nat, y: nat)
    requires IsCrop(img, c, pad, crop) && InBox(img, c) && x < crop.width && y < crop.height
    ensures var t := y * crop.width + x;
      && 0 <= 4 * t && 4 * t + 3 < |crop.data|
      && (forall i :: BelongsAt(img, c, pad, x, y, i) ==>
            0 <= 4 * i && 4 * i + 3 < |img.rgba| && crop.data[4 * t..4 * t + 4] == img.rgba[4 * i..4 * i + 4])
      && ((forall i :: !BelongsAt(img, c, pad, x, y, i)) ==> crop.data[4 * t..4 * t + 4] == [0, 0, 0, 0])
  {
    var t := y * crop.width + x;
    PlaceInCrop(crop, x, y);
    PlaceBytes(crop.data, t);
    forall i | BelongsAt(img, c, pad, x, y, i)
      ensures 0 <= 4 * i && 4 * i + 3 < |img.rgba| && crop.data[4 * t..4 * t + 4] == img.rgba[4 * i..4 * i + 4]
    {
      BelongingShown(img, c, pad, crop, x, y, i);
      PlaceBytes(img.rgba, i);
    }
    if forall i :: !BelongsAt(img, c, pad, x, y, i) { NothingBelongs(img, c, pad, crop, x, y); }
  }

  lemma NothingBelongs(img: Image, c: Component, pad: nat, crop: Crop, x: nat, y: nat)
    requires IsCrop(img, c, pad, crop) && InBox(img, c) && x < crop.width && y < crop.height
    requires forall i :: !BelongsAt(img, c, pad, x, y, i)
    ensures 0 <= y * crop.width + x < crop.width * crop.height
    ensures Quad(crop.data, y * crop.width + x) == CLEAR
  {
    PlaceInCrop(crop, x, y);
    forall i | i in c.pixels && InImage(img, i) ensures Target(img, c, pad, crop.width, i) != y * crop.width + x {
      if Target(img, c, pad, crop.width, i) == y * crop.width + x {
        WritesWhereItBelongs(img, c, pad, crop, x, y, i);
      }
    }
  }

  lemma WritesWhereItBelongs(img: Image, c: Component, pad: nat, crop: Crop, x: nat, y: nat, i: int)
    requires IsCrop(img, c, pad, crop) && InBox(img, c) && x < crop.width && y < crop.height
    requires i in c.pixels && InImage(img, i) && Target(img, c, pad, crop.width, i) == y * crop.width + x
    ensures BelongsAt(img, c, pad, x, y, i)
  {
    TargetInCrop(img, c, pad, crop.width, crop.height, i);
    AtCoordinates(Grid2(crop.width, crop.height), x, y);
    RowBound(img, i);
  }

  lemma OnlyWriter(img: Image, c: Component, pad: nat, width: nat, height: nat, i: int)
    requires InBox(img, c) && i in c.pixels && InImage(img, i)
    requires width == c.maxX - c.minX + 1 + 2 * pad && height == c.maxY - c.minY + 1 + 2 * pad
    ensures LastAt(img, c, pad, width, |c.pixels|, Target(img, c, pad, width, i)) == Some(i)
  {
    var p := LastAt(img, c, pad, width, |c.pixels|, Target(img, c, pad, width, i));
    var k :| 0 <= k < |c.pixels| && c.pixels[k] == i;
    TargetInjective(img, c, pad, width, height, i, p.value);
  }

  // Slicing loses nothing.

  /** A component of the sheet, the padding chosen for it, and the crop made of it. */
  datatype Slice = Slice(component: Component, pad: nat, crop: Crop)

  ghost predicate IsSlice(img: Image, s: Slice) {
    IsComponent(img, s.component) && IsCrop(img, s.component, s.pad, s.crop)
  }

  /** The pixel of a crop at (dx, dy); outside the crop there is nothing. */
  function CropPixel(crop: Crop, dx: int, dy: int): (q: seq<byte>)
    ensures |q| == 4
  {
    var t := dy * crop.width + dx;
    if 0 <= dx < crop.width && 0 <= dy < crop.height && 0 <= t && 4 * t + 3 < |crop.data| then Quad(crop.data, t)
    else CLEAR
  }

  /** What the crop shows over the place `i` of the sheet, laid where its component was. */
  function Seen(img: Image, s: Slice, i: int): (q: seq<byte>)
    ensures |q| == 4
  {
    CropPixel(s.crop, X(img, i) - (s.component.minX - s.pad), Y(img, i) - (s.component.minY - s.pad))
  }

  /** A visible pixel covers what is below it. */
  function Over(q: seq<byte>, below: seq<byte>): seq<byte>
    requires |q| == 4
  {
    if q[3] != 0 then q else below
  }

  /** Draw the crop's visible pixels on the canvas. */
  function Paste(img: Image, canvas: seq<seq<byte>>, s: Slice): seq<seq<byte>> {
    seq(|canvas|, i requires 0 <= i < |canvas| => Over(Seen(img, s, i), canvas[i]))
  }

  /** All crops pasted back, each at the place its component had, on a blank canvas. */
  function PasteAll(img: Image, slices: seq<Slice>): seq<seq<byte>> {
    if slices == [] then seq(Area(img), i => CLEAR)
    else
      Paste(img, PasteAll(img, slices[..|slices| - 1]), slices[|slices| - 1])
  }

  /** The solid pixels of the sheet on a transparent ground. */
  ghost function SolidPart(img: Image): seq<seq<byte>>
    requires WellFormed(img)
  {
    seq(Area(img), i requires 0 <= i < Area(img) => if Solid(img, i) then Quad(img.rgba, i) else CLEAR)
  }

  lemma OwnPixel(img: Image, s: Slice, i: int)
    requires WellFormed(img) && IsSlice(img, s) && InBox(img, s.component) && InImage(img, i) && i in s.component.pixels
    ensures Seen(img, s, i) == Quad(img.rgba, i)
  {
    var c, pad, crop := s.component, s.pad, s.crop;
    RowBound(img, i);
    TargetInCrop(img, c, pad, crop.width, crop.height, i);
    var dx, dy := X(img, i) - (c.minX - pad), Y(img, i) - (c.minY - pad);
    assert dy * crop.width + dx == Target(img, c, pad, crop.width, i);
  }

  lemma OtherPixel(img: Image, s: Slice, i: int)
    requires WellFormed(img) && IsSlice(img, s) && InBox(img, s.component) && InImage(img, i)
      && i !in s.component.pixels
    ensures Seen(img, s, i) == CLEAR
  {
    var c, pad, crop := s.component, s.pad, s.crop;
    var dx, dy := X(img, i) - (c.minX - pad), Y(img, i) - (c.minY - pad);
    if 0 <= dx < crop.width && 0 <= dy < crop.height {
      AtCoordinates(Grid2(crop.width, crop.height), dx, dy);
      var t := dy * crop.width + dx;
      forall j | j in c.pixels && InImage(img, j) ensures Target(img, c, pad, crop.width, j) != t {
        OtherTarget(img, c, pad, crop, i, j, t);
      }
    }
  }

  /** A pixel of the component is not drawn where the crop shows another place of the sheet. */
  lemma OtherTarget(img: Image, c: Component, pad: nat, crop: Crop, i: int, j: int, t: int)
    requires IsCrop(img, c, pad, crop) && InBox(img, c) && InImage(img, i) && InImage(img, j) && j in c.pixels && i != j
    requires 0 <= t && X(Grid2(crop.width, crop.height), t) == X(img, i) - (c.minX - pad)
    requires Y(Grid2(crop.width, crop.height), t) == Y(img, i) - (c.minY - pad)
    ensures Target(img, c, pad, crop.width, j) != t
  {
    TargetInCrop(img, c, pad, crop.width, crop.height, j);
    RowBound(img, i);
    RowBound(img, j);
  }

  lemma ComponentInBox(img: Image, c: Component)
    requires IsComponent(img, c)
    ensures InBox(img, c) && forall i :: i in c.pixels ==> Solid(img, i)
  {
    AddSolid(img, c);
    forall i | i in c.pixels ensures Solid(img, i) {
      assert i in Elements(c.pixels);
    }
    assert c.pixels[0] in c.pixels;
  }

  /** Seen at one place of the sheet, the crop shows the pixel there if it is the component's own, and nothing else. */
  ghost predicate Shows(img: Image, s: Slice, i: int)
    requires WellFormed(img) && InImage(img, i)
  {
    && Seen(img, s, i) == (if i in s.component.pixels then Quad(img.rgba, i) else CLEAR)
    && (i in s.component.pixels ==> Solid(img, i))
  }

  lemma SliceShows(img: Image, s: Slice, i: int)
    requires WellFormed(img) && IsSlice(img, s) && InImage(img, i)
    ensures Shows(img, s, i)
  {
    ComponentInBox(img, s.component);
    if i in s.component.pixels {
      OwnPixel(img, s, i);
    } else {
      OtherPixel(img, s, i);
    }
  }

  lemma PasteShows(img: Image, s: Slice, canvas: seq<seq<byte>>, i: int)
    requires WellFormed(img) && |canvas| == Area(img) && InImage(img, i) && Shows(img, s, i)
    ensures Paste(img, canvas, s)[i] == if i in s.component.pixels then Quad(img.rgba, i) else canvas[i]
  {
  }

  ghost predicate Sliced(slices: seq<Slice>, i: int) {
    exists k :: 0 <= k < |slices| && i in slices[k].component.pixels
  }

  lemma {:induction false} PasteAllShows(img: Image, slices: seq<Slice>, i: int)
    requires WellFormed(img) && InImage(img, i)
    requires forall k :: 0 <= k < |slices| ==> Shows(img, slices[k], i)
    ensures |PasteAll(img, slices)| == Area(img)
    ensures PasteAll(img, slices)[i] == if Sliced(slices, i) then Quad(img.rgba, i) else CLEAR
  {
    if slices != [] {
      var n := |slices| - 1;
      PasteAllShows(img, slices[..n], i);
      PasteShows(img, slices[n], PasteAll(img, slices[..n]), i);
      SlicedLast(slices, i);
    }
  }

  lemma SlicedLast(slices: seq<Slice>, i: int)
    requires slices != []
    ensures Sliced(slices, i) <==> Sliced(slices[..|slices| - 1], i) || i in slices[|slices| - 1].component.pixels
  {
    var n := |slices| - 1;
    if Sliced(slices[..n], i) {
      var k :| 0 <= k < n && i in slices[..n][k].component.pixels;
      assert i in slices[k].component.pixels;
    }
    if Sliced(slices, i) && i !in slices[n].component.pixels {
      var k :| 0 <= k < |slices| && i in slices[k].component.pixels;
      assert slices[..n][k] == slices[k];
    }
  }

  lemma {:induction false} PasteAllSize(img: Image, slices: seq<Slice>)
    ensures |PasteAll(img, slices)| == Area(img)
  {
    if slices != [] { PasteAllSize(img, slices[..|slices| - 1]); }
  }

  lemma EverySolidSliced(img: Image, cs: seq<Component>, slices: seq<Slice>, i: int)
    requires WellFormed(img) && ExactComponents(img, 1, cs) && InImage(img, i)
    requires |slices| == |cs| && forall k :: 0 <= k < |cs| ==> slices[k].component == cs[k]
    ensures Sliced(slices, i) <==> Solid(img, i)
  {
    if Solid(img, i) {
      Paths.ReachesSelf(Grid(img), i);
      assert i in ClassOf(img, i);
      assert |ClassOf(img, i)| >= 1;
      var k :| 0 <= k < |cs| && i in cs[k].pixels;
      assert i in slices[k].component.pixels;
    }
    if Sliced(slices, i) {
      var k :| 0 <= k < |slices| && i in slices[k].component.pixels;
      ComponentInBox(img, cs[k]);
    }
  }

  lemma AllShow(img: Image, slices: seq<Slice>, i: int)
    requires WellFormed(img) && InImage(img, i) && forall k :: 0 <= k < |slices| ==> IsSlice(img, slices[k])
    ensures forall k :: 0 <= k < |slices| ==> Shows(img, slices[k], i)
  {
    forall k | 0 <= k < |slices| ensures Shows(img, slices[k], i) {
      SliceShows(img, slices[k], i);
    }
  }

  lemma LosslessAt(img: Image, cs: seq<Component>, slices: seq<Slice>, i: int)
    requires WellFormed(img) && ExactComponents(img, 1, cs) && |slices| == |cs| && InImage(img, i)
    requires forall k :: 0 <= k < |cs| ==> slices[k].component == cs[k]
    requires forall k :: 0 <= k < |slices| ==> Shows(img, slices[k], i)
    ensures |PasteAll(img, slices)| == Area(img)
    ensures PasteAll(img, slices)[i] == if Solid(img, i) then Quad(img.rgba, i) else CLEAR
  {
    PasteAllShows(img, slices, i);
    EverySolidSliced(img, cs, slices, i);
  }

  /**
   Slicing is lossless. Pasting every crop back at its component's place, on a blank canvas and whatever
   the paddings, gives every solid pixel of the sheet its own four bytes and leaves the rest transparent.
   */
  lemma Lossless(img: Image, cs: seq<Component>, slices: seq<Slice>)
    requires WellFormed(img) && ExactComponents(img, 1, cs) && |slices| == |cs|
    requires forall k :: 0 <= k < |cs| ==>
      slices[k].component == cs[k] && IsCrop(img, cs[k], slices[k].pad, slices[k].crop)
    ensures PasteAll(img, slices) == SolidPart(img)
  {
    AreSlices(img, cs, slices);
    forall i | 0 <= i < Area(img)
      ensures |PasteAll(img, slices)| == Area(img)
      ensures PasteAll(img, slices)[i] == if Solid(img, i) then Quad(img.rgba, i) else CLEAR
    {
      AllShow(img, slices, i);
      LosslessAt(img, cs, slices, i);
    }
    PasteAllSize(img, slices);
    IsSolidPart(img, PasteAll(img, slices));
  }

  lemma AreSlices(img: Image, cs: seq<Component>, slices: seq<Slice>)
    requires ExactComponents(img, 1, cs) && |slices| == |cs|
    requires forall k :: 0 <= k < |cs| ==>
      slices[k].component == cs[k] && IsCrop(img, cs[k], slices[k].pad, slices[k].crop)
    ensures forall k :: 0 <= k < |slices| ==> IsSlice(img, slices[k])
  {
  }

  lemma IsSolidPart(img: Image, canvas: seq<seq<byte>>)
    requires WellFormed(img) && |canvas| == Area(img)
    requires forall i :: 0 <= i < Area(img) ==> canvas[i] == if Solid(img, i) then Quad(img.rgba, i) else CLEAR
    ensures canvas == SolidPart(img)
  {
  }
}
