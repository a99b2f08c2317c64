/** What a built manifest says and what a checked one resolves to, told on the visuals themselves. */
module PackAnswers {
  import opened Basics
  import opened VisualPack

  predicate Ascends(at: seq<nat>) { forall i, j :: 0 <= i < j < |at| ==> at[i] < at[j] }

  // The writer.

  /** The part has a visual. */
  predicate Has(visuals: seq<Visual>, part: string) { exists i :: 0 <= i < |visuals| && visuals[i].part == part }

  /** The `i`-th drawn part has a visual. */
  predicate HasPlace(r: Request, i: nat) { i < |r.drawOrder| && Has(r.visuals, r.drawOrder[i]) }

  /** The places of the draw order below `n` whose part has a visual, all of them and in order. */
  predicate Places(r: Request, n: nat, at: seq<nat>) {
    && Ascends(at) && (forall k :: 0 <= k < |at| ==> at[k] < n && HasPlace(r, at[k]))
    && forall i: nat :: i < n && HasPlace(r, i) ==> i in at
  }

  /** What is written for a visual: its bone is its part and its key the made-up one where they are missing. */
  predicate WrittenFor(id: string, v: Visual, e: Visual) {
    && e.part == v.part && e.rect == v.rect && e.pivot == v.pivot
    && (v.bone != "" ==> e.bone == v.bone) && (v.bone == "" ==> e.bone == v.part)
    && (v.key != "" ==> e.key == v.key) && (v.key == "" ==> e.key == id + "." + v.part + ".side")
  }

  predicate WritesPart(r: Request, part: string, e: Visual) {
    exists i :: 0 <= i < |r.visuals| && r.visuals[i].part == part && WrittenFor(r.id, r.visuals[i], e)
  }

  lemma FoundTells(r: Request, part: string)
    ensures FindPart(r.visuals, part).Some? <==> Has(r.visuals, part)
    ensures FindPart(r.visuals, part).Some? ==> WritesPart(r, part, Entry(r.id, FindPart(r.visuals, part).value))
  {
    FoundPart(r.visuals, part);
    var found := FindPart(r.visuals, part);
    if found.Some? {
      var i :| 0 <= i < |r.visuals| && r.visuals[i] == found.value;
      assert WrittenFor(r.id, r.visuals[i], Entry(r.id, found.value));
    } else {
      forall i | 0 <= i < |r.visuals| ensures r.visuals[i].part != part { assert r.visuals[i] in r.visuals; }
    }
  }

  /** The entries are those written for the parts at these places. */
  predicate WritesAt(r: Request, at: seq<nat>, entries: seq<Visual>) {
    |entries| == |at|
    && forall k :: 0 <= k < |at| ==> at[k] < |r.drawOrder| && WritesPart(r, r.drawOrder[at[k]], entries[k])
  }

  predicate DrawsAt(r: Request, n: nat, at: seq<nat>)
    requires n <= |r.drawOrder|
  {
    Places(r, n, at) && WritesAt(r, at, Drawn(r, n))
  }

  /** The places once one more part is drawn. */
  function More(r: Request, n: nat, at: seq<nat>): seq<nat> { if HasPlace(r, n) then at + [n] else at }

  lemma PlacesNext(r: Request, n: nat, at: seq<nat>)
    requires Places(r, n, at)
    ensures Places(r, n + 1, More(r, n, at))
  {
    var more := More(r, n, at);
    forall i: nat | i < n + 1 && HasPlace(r, i) ensures i in more {
      if i == n { assert more[|at|] == n; }
    }
  }

  lemma WritesNext(r: Request, n: nat, at: seq<nat>)
    requires n < |r.drawOrder| && WritesAt(r, at, Drawn(r, n))
    ensures WritesAt(r, More(r, n, at), Drawn(r, n + 1))
  {
    FoundTells(r, r.drawOrder[n]);
    var found := FindPart(r.visuals, r.drawOrder[n]);
    if found.Some? {
      assert Drawn(r, n + 1) == Drawn(r, n) + [Entry(r.id, found.value)];
    } else {
      assert Drawn(r, n + 1) == Drawn(r, n);
    }
  }

  lemma DrawsNext(r: Request, n: nat, at: seq<nat>)
    requires n < |r.drawOrder| && DrawsAt(r, n, at)
    ensures DrawsAt(r, n + 1, More(r, n, at))
  {
    PlacesNext(r, n, at);
    WritesNext(r, n, at);
  }

  function PlacesBelow(r: Request, n: nat): seq<nat> {
    if n == 0 then [] else More(r, n - 1, PlacesBelow(r, n - 1))
  }

  lemma {:induction false} DrawnTells(r: Request, n: nat)
    requires n <= |r.drawOrder|
    ensures DrawsAt(r, n, PlacesBelow(r, n))
  {
    if n > 0 {
      var m := n - 1;
      var at := PlacesBelow(r, m);
      DrawnTells(r, m);
      DrawsNext(r, m, at);
      assert PlacesBelow(r, n) == More(r, m, at);
    }
  }

  /** The last entry of each part gives its look. */
  ghost predicate LooksLast(appearance: map<string, string>, entries: seq<Visual>) {
    && (forall part :: part in appearance ==> exists i :: LastEntry(entries, i) && entries[i].part == part)
    && forall i :: LastEntry(entries, i) ==>
         entries[i].part in appearance && appearance[entries[i].part] == entries[i].key
  }

  predicate LastEntry(entries: seq<Visual>, i: int) {
    0 <= i < |entries| && forall j :: i < j < |entries| ==> entries[j].part != entries[i].part
  }

  lemma {:induction false} AppearanceTells(entries: seq<Visual>)
    ensures LooksLast(Appearance(entries), entries)
  {
    if entries != [] {
      var n := |entries| - 1;
      var front, last := entries[..n], entries[n];
      AppearanceTells(front);
      forall i ensures LastEntry(entries, i) <==> i == n || (LastEntry(front, i) && front[i].part != last.part) {
        if LastEntry(front, i) && front[i].part != last.part {
          forall j | i < j < |entries| ensures entries[j].part != entries[i].part {
            if j < n { assert front[j] == entries[j]; }
          }
        }
        if LastEntry(entries, i) && i < n {
          forall j | i < j < n ensures front[j].part != front[i].part { assert front[j] == entries[j]; }
        }
      }
      var looks := Appearance(entries);
      forall part | part in looks ensures exists i :: LastEntry(entries, i) && entries[i].part == part {
        if part == last.part {
          assert LastEntry(entries, n);
        } else {
          var i :| LastEntry(front, i) && front[i].part == part;
          assert LastEntry(entries, i) && entries[i].part == part;
        }
      }
    }
  }

  /** A built manifest, field by field: constants, header, and one entry for each drawn part that has a visual. */
  lemma ManifestTells(r: Request) returns (at: seq<nat>)
    ensures var m := ManifestOf(r);
      && m.schemaVersion == 1 && m.kind == "purgatory_visual_pack" && m.rig == "humanoid_v0"
      && m.view == "side" && m.facing == "right" && m.id == r.id && m.ppu == r.ppu
      && (r.complete ==> m.completeness == "complete") && (!r.complete ==> m.completeness == "partial_dev")
      && (r.atlas.file != "" ==> m.atlas.file == r.atlas.file)
      && (r.atlas.file == "" ==> m.atlas.file == r.id + ".side.atlas.png")
      && m.atlas.width == r.atlas.width && m.atlas.height == r.atlas.height
    ensures Places(r, |r.drawOrder|, at) && WritesAt(r, at, ManifestOf(r).visuals)
    ensures |ManifestOf(r).drawOrder| == |at|
    ensures forall k :: 0 <= k < |at| ==> ManifestOf(r).drawOrder[k] == r.drawOrder[at[k]]
    ensures LooksLast(ManifestOf(r).appearance, ManifestOf(r).visuals)
  {
    at := PlacesBelow(r, |r.drawOrder|);
    DrawnTells(r, |r.drawOrder|);
    AppearanceTells(ManifestOf(r).visuals);
  }

  // The checker.

  /** The appearance says nothing about the part. */
  predicate Silent(m: Manifest, part: string) { part !in m.appearance || m.appearance[part] == "" }

  /** The appearance gives the part this visual of the manifest: the first one with that key. */
  predicate Gives(m: Manifest, part: string, v: Visual) {
    !Silent(m, part) && v.part == part
    && exists i :: 0 <= i < |m.visuals| && m.visuals[i] == v && FirstWith(m.visuals, m.appearance[part], i)
  }

  lemma {:induction false} KeyTells(visuals: seq<Visual>, key: string)
    ensures ByKey(visuals, key).None? <==> key == "" || forall i :: 0 <= i < |visuals| ==> visuals[i].key != key
    ensures ByKey(visuals, key).Some? ==>
      exists i :: FirstWith(visuals, key, i) && ByKey(visuals, key) == Some(visuals[i])
  {
    if visuals != [] {
      var n := |visuals| - 1;
      KeyTells(visuals[..n], key);
      if i :| FirstWith(visuals[..n], key, i) && ByKey(visuals[..n], key) == Some(visuals[..n][i]) {
        assert FirstWith(visuals, key, i);
      } else if key != "" && visuals[n].key == key {
        assert FirstWith(visuals, key, n);
      }
    }
  }

  predicate FirstWith(visuals: seq<Visual>, key: string, i: int) {
    0 <= i < |visuals| && visuals[i].key == key && forall j :: 0 <= j < i ==> visuals[j].key != key
  }

  /** A look is a visual exactly when the appearance gives it, and missing when it says nothing. */
  lemma LookTells(m: Manifest, part: string, v: Visual)
    ensures LookAt(m, part) == Shown(v) <==> Gives(m, part, v)
    ensures LookAt(m, part) == Absent <==> Silent(m, part)
  {
    if !Silent(m, part) { KeyTells(m.visuals, m.appearance[part]); }
  }

  ghost predicate IsGiven(m: Manifest, part: string) { exists v :: Gives(m, part, v) }

  lemma NotGiven(m: Manifest, part: string)
    requires !LookAt(m, part).Shown?
    ensures !IsGiven(m, part) && (LookAt(m, part).Absent? <==> Silent(m, part))
  {
    if v :| Gives(m, part, v) { LookTells(m, part, v); }
    if !Silent(m, part) { KeyTells(m.visuals, m.appearance[part]); }
  }

  /** The places of the order below `n` whose part is given a visual, all of them and in order. */
  ghost predicate GivenPlaces(m: Manifest, order: seq<string>, n: nat, at: seq<nat>)
    requires n <= |order|
  {
    && Ascends(at) && (forall k :: 0 <= k < |at| ==> at[k] < n)
    && forall i: nat :: i < n ==> (i in at <==> IsGiven(m, order[i]))
  }

  predicate GivesAt(m: Manifest, order: seq<string>, at: seq<nat>, visuals: seq<Visual>) {
    |visuals| == |at| && forall k :: 0 <= k < |at| ==> at[k] < |order| && Gives(m, order[at[k]], visuals[k])
  }

  ghost predicate ResolvesAt(m: Manifest, order: seq<string>, n: nat, at: seq<nat>)
    requires n <= |order|
  {
    GivenPlaces(m, order, n, at) && GivesAt(m, order, at, Resolved(m, order, n))
  }

  /** The places once one more part is looked at. */
  ghost function MoreGiven(m: Manifest, order: seq<string>, n: nat, at: seq<nat>): seq<nat>
    requires n < |order|
  {
    if IsGiven(m, order[n]) then at + [n] else at
  }

  lemma GivenNext(m: Manifest, order: seq<string>, n: nat, at: seq<nat>)
    requires n < |order| && GivenPlaces(m, order, n, at)
    ensures GivenPlaces(m, order, n + 1, MoreGiven(m, order, n, at))
  {
    var more := MoreGiven(m, order, n, at);
    forall i: nat | i < n + 1 ensures i in more <==> IsGiven(m, order[i]) {
      if i == n && IsGiven(m, order[n]) { assert more[|at|] == n; }
    }
  }

  lemma GivesNext(m: Manifest, order: seq<string>, n: nat, at: seq<nat>)
    requires n < |order| && GivesAt(m, order, at, Resolved(m, order, n))
    ensures GivesAt(m, order, MoreGiven(m, order, n, at), Resolved(m, order, n + 1))
  {
    var look := LookAt(m, order[n]);
    if look.Shown? {
      LookTells(m, order[n], look.visual);
      assert Resolved(m, order, n + 1) == Resolved(m, order, n) + [look.visual];
    } else {
      NotGiven(m, order[n]);
      assert Resolved(m, order, n + 1) == Resolved(m, order, n);
    }
  }

  lemma ResolvesNext(m: Manifest, order: seq<string>, n: nat, at: seq<nat>)
    requires n < |order| && ResolvesAt(m, order, n, at)
    ensures ResolvesAt(m, order, n + 1, MoreGiven(m, order, n, at))
  {
    GivenNext(m, order, n, at);
    GivesNext(m, order, n, at);
  }

  ghost function GivenBelow(m: Manifest, order: seq<string>, n: nat): seq<nat>
    requires n <= |order|
  {
    if n == 0 then [] else MoreGiven(m, order, n - 1, GivenBelow(m, order, n - 1))
  }

  /** What a manifest resolves to: the visuals given to the drawn parts, in draw order, the others passed over. */
  lemma {:induction false} ResolvedTells(m: Manifest, order: seq<string>, n: nat)
    requires n <= |order|
    ensures ResolvesAt(m, order, n, GivenBelow(m, order, n))
  {
    if n > 0 {
      var k := n - 1;
      var at := GivenBelow(m, order, k);
      ResolvedTells(m, order, k);
      ResolvesNext(m, order, k, at);
      assert GivenBelow(m, order, n) == MoreGiven(m, order, k, at);
    }
  }

  /** What the checker asks of the looks: parts are given visuals, and a partial pack may say nothing of some. */
  lemma LooksTell(m: Manifest, e: Expected) returns (at: seq<nat>)
    ensures GivenPlaces(m, e.drawOrder, |e.drawOrder|, at)
    ensures GoodLooks(m, e) <==>
      && (forall i :: 0 <= i < |e.drawOrder| ==>
            IsGiven(m, e.drawOrder[i]) || (Silent(m, e.drawOrder[i]) && m.completeness != "complete"))
      && (m.completeness == "complete" && e.required != [] ==> |at| == |e.required|)
  {
    at := GivenBelow(m, e.drawOrder, |e.drawOrder|);
    ResolvedTells(m, e.drawOrder, |e.drawOrder|);
    forall i | 0 <= i < |e.drawOrder|
      ensures GoodLook(m, e.drawOrder[i]) <==>
        IsGiven(m, e.drawOrder[i]) || (Silent(m, e.drawOrder[i]) && m.completeness != "complete")
    {
      GoodLookTells(m, e.drawOrder[i]);
    }
  }

  lemma GoodLookTells(m: Manifest, part: string)
    ensures GoodLook(m, part) <==> IsGiven(m, part) || (Silent(m, part) && m.completeness != "complete")
  {
    var look := LookAt(m, part);
    if look.Shown? {
      LookTells(m, part, look.visual);
    } else {
      NotGiven(m, part);
    }
  }

  ghost predicate Whole(x: real) { exists n: int :: WholeIs(n, x) }

  predicate WholeIs(n: int, x: real) { x == n as real }

  ghost predicate HeaderRules(m: Manifest) {
    && m.schemaVersion == 1 && m.kind == "purgatory_visual_pack" && m.rig == "humanoid_v0" && m.view == "side"
    && m.facing in ["", "right"] && m.ppu > 0.0 && m.completeness in ["partial_dev", "complete"]
    && exists i :: 0 <= i < |m.id| && !Space(m.id[i]) && m.id[i] != '\U{FEFF}'
  }

  /** A file name without a directory, whole sides above zero, and the sides of the picture where they are known. */
  ghost predicate AtlasRules(a: AtlasInfo, e: Expected) {
    && a.file != "" && (forall i :: 0 <= i < |a.file| ==> a.file[i] != '/' && a.file[i] != '\\')
    && Whole(a.width) && Whole(a.height) && a.width > 0.0 && a.height > 0.0
    && (e.width > 0.0 && e.height > 0.0 ==> a.width == e.width && a.height == e.height)
  }

  ghost predicate RectRules(rect: seq<real>, e: Expected) {
    && |rect| == 4 && (forall i :: 0 <= i < 4 ==> Whole(rect[i]))
    && 0.0 <= rect[0] && 0.0 <= rect[1] && 0.0 < rect[2] && 0.0 < rect[3]
    && (e.width > 0.0 ==> rect[0] + rect[2] <= e.width) && (e.height > 0.0 ==> rect[1] + rect[3] <= e.height)
  }

  ghost predicate VisualRules(v: Visual, e: Expected) {
    && v.part != "" && v.bone == v.part && v.key != "" && |v.pivot| == 2 && RectRules(v.rect, e)
    && (e.required != [] ==> v.part in e.required) && (e.bones != {} ==> v.part in e.bones)
  }

  /** The parts and the keys of the visuals differ from one another. */
  predicate AllDiffer(visuals: seq<Visual>) {
    forall i, j :: 0 <= i < j < |visuals| ==> visuals[i].part != visuals[j].part && visuals[i].key != visuals[j].key
  }

  ghost predicate LookRules(m: Manifest, e: Expected) {
    && (forall i :: 0 <= i < |e.drawOrder| ==>
          IsGiven(m, e.drawOrder[i]) || (Silent(m, e.drawOrder[i]) && m.completeness != "complete"))
    && (m.completeness == "complete" && e.required != [] ==>
          forall at :: GivenPlaces(m, e.drawOrder, |e.drawOrder|, at) ==> |at| == |e.required|)
  }

  lemma WholeTells(x: real)
    ensures Whole(x) <==> WholeNumber(x)
  {
    if WholeNumber(x) { assert WholeIs(x.Floor, x); }
  }

  lemma HeaderTells(m: Manifest)
    ensures GoodHeader(m) <==> HeaderRules(m)
  {
    assert Blank(m.id) <==> forall i :: 0 <= i < |m.id| ==> Space(m.id[i]) || m.id[i] == '\U{FEFF}';
  }

  lemma AtlasTells(a: AtlasInfo, e: Expected)
    ensures GoodAtlas(a, e) <==> AtlasRules(a, e)
  {
    WholeTells(a.width);
    WholeTells(a.height);
  }

  lemma VisualTells(v: Visual, e: Expected)
    ensures GoodVisual(v, e) <==> VisualRules(v, e)
  {
    forall i | 0 <= i < |v.rect| ensures Whole(v.rect[i]) <==> WholeNumber(v.rect[i]) {
      WholeTells(v.rect[i]);
    }
  }

  lemma VisualsTell(visuals: seq<Visual>, e: Expected)
    ensures GoodVisuals(visuals, e) <==>
      (forall i :: 0 <= i < |visuals| ==> VisualRules(visuals[i], e)) && AllDiffer(visuals)
  {
    forall i | 0 <= i < |visuals| ensures GoodVisual(visuals[i], e) <==> VisualRules(visuals[i], e) {
      VisualTells(visuals[i], e);
    }
    if GoodVisuals(visuals, e) {
      forall i, j | 0 <= i < j < |visuals| ensures visuals[i].key != visuals[j].key { assert FreshKey(visuals, j); }
    }
  }

  /** There is only one list of the places. */
  lemma PlacesAreOne(m: Manifest, order: seq<string>, at: seq<nat>, other: seq<nat>)
    requires GivenPlaces(m, order, |order|, at) && GivenPlaces(m, order, |order|, other)
    ensures |at| == |other|
  {
    forall i: nat ensures i in at <==> i in other {
      if i in at { assert i < |order|; }
      if i in other { assert i < |order|; }
    }
    SameSize(at, other);
  }

  lemma {:induction false} SameSize(at: seq<nat>, other: seq<nat>)
    requires Ascends(at) && Ascends(other) && forall i: nat :: i in at <==> i in other
    ensures |at| == |other|
    decreases |at|
  {
    assert at == [] <==> other == [] by {
      if at != [] { assert at[0] in at; }
      if other != [] { assert other[0] in other; }
    }
    if at != [] {
      LastIsSame(at, other);
      var m, n := |at| - 1, |other| - 1;
      forall i: nat ensures i in at[..m] <==> i in other[..n] {
        BelowLast(at, i);
        BelowLast(other, i);
      }
      SameSize(at[..m], other[..n]);
    }
  }

  lemma BelowLast(at: seq<nat>, i: nat)
    requires Ascends(at) && at != []
    ensures i in at[..|at| - 1] <==> i in at && i != at[|at| - 1]
  {
    if i in at && i != at[|at| - 1] {
      var k :| 0 <= k < |at| && at[k] == i;
      assert at[..|at| - 1][k] == i;
    }
  }

  lemma LastIsSame(at: seq<nat>, other: seq<nat>)
    requires Ascends(at) && Ascends(other) && at != [] && other != [] && forall i: nat :: i in at <==> i in other
    ensures at[|at| - 1] == other[|other| - 1]
  {
    assert at[|at| - 1] in other && other[|other| - 1] in at;
  }

  /** The packs the checker passes are those that follow its rules, one by one. */
  lemma AcceptedIffRules(m: Manifest, e: Expected)
    ensures Accepted(m, e) <==>
      && HeaderRules(m) && AtlasRules(m.atlas, e) && m.visuals != []
      && (forall i :: 0 <= i < |m.visuals| ==> VisualRules(m.visuals[i], e)) && AllDiffer(m.visuals)
      && LookRules(m, e)
  {
    HeaderTells(m);
    AtlasTells(m.atlas, e);
    VisualsTell(m.visuals, e);
    var at := LooksTell(m, e);
    forall other | GivenPlaces(m, e.drawOrder, |e.drawOrder|, other) ensures |other| == |at| {
      PlacesAreOne(m, e.drawOrder, at, other);
    }
  }
}
