/** The visual pack's writer and checker agree: when a built pack is accepted, and that it then reads back whole. */
module PackTheorems {
  import opened Basics
  import opened VisualPack
  import Atlas

  // The entries the writer draws.

  /** The `i`-th drawn part has a visual. */
  predicate HasVisual(r: Request, i: nat)
    requires i < |r.drawOrder|
  {
    FindPart(r.visuals, r.drawOrder[i]).Some?
  }

  /** The visual will be written. */
  predicate IsDrawn(r: Request, v: Visual) { v in r.visuals && v.part in r.drawOrder }

  /** No part that has a visual is named twice among the first `n` drawn parts. */
  ghost predicate NoRepeat(r: Request, n: nat)
    requires n <= |r.drawOrder|
  {
    forall i, j :: 0 <= i < j < n && HasVisual(r, i) && HasVisual(r, j) ==> r.drawOrder[i] != r.drawOrder[j]
  }

  lemma TheVisual(r: Request, v: Visual)
    requires DistinctParts(r.visuals) && v in r.visuals
    ensures FindPart(r.visuals, v.part) == Some(v)
  {
    FoundPart(r.visuals, v.part);
    var w := FindPart(r.visuals, v.part).value;
    var i :| 0 <= i < |r.visuals| && r.visuals[i] == v;
    var j :| 0 <= j < |r.visuals| && r.visuals[j] == w;
    assert i == j;
  }

  lemma {:induction false} DrawnEntries(r: Request, n: nat)
    requires n <= |r.drawOrder|
    ensures forall e :: e in Drawn(r, n) ==>
      exists i :: 0 <= i < n && HasVisual(r, i) && e == Entry(r.id, FindPart(r.visuals, r.drawOrder[i]).value)
    ensures forall i :: 0 <= i < n && HasVisual(r, i) ==>
      Entry(r.id, FindPart(r.visuals, r.drawOrder[i]).value) in Drawn(r, n)
  {
    if n > 0 {
      DrawnEntries(r, n - 1);
      var last := Drawn(r, n)[|Drawn(r, n - 1)|..];
      assert Drawn(r, n) == Drawn(r, n - 1) + last;
      if HasVisual(r, n - 1) {
        assert Drawn(r, n)[|Drawn(r, n - 1)|] == Entry(r.id, FindPart(r.visuals, r.drawOrder[n - 1]).value);
      }
    }
  }

  /** What is written is an entry for each drawn visual and nothing else. */
  lemma DrawnIs(r: Request)
    requires DistinctParts(r.visuals)
    ensures forall e :: e in Drawn(r, |r.drawOrder|) ==> exists v :: IsDrawn(r, v) && e == Entry(r.id, v)
    ensures forall v :: IsDrawn(r, v) ==> Entry(r.id, v) in Drawn(r, |r.drawOrder|)
  {
    DrawnEntries(r, |r.drawOrder|);
    forall e | e in Drawn(r, |r.drawOrder|) ensures exists v :: IsDrawn(r, v) && e == Entry(r.id, v) {
      var i :| 0 <= i < |r.drawOrder| && HasVisual(r, i) && e == Entry(r.id, FindPart(r.visuals, r.drawOrder[i]).value);
      FoundPart(r.visuals, r.drawOrder[i]);
      assert IsDrawn(r, FindPart(r.visuals, r.drawOrder[i]).value);
    }
    forall v | IsDrawn(r, v) ensures Entry(r.id, v) in Drawn(r, |r.drawOrder|) {
      TheVisual(r, v);
      var i :| 0 <= i < |r.drawOrder| && r.drawOrder[i] == v.part;
      assert HasVisual(r, i);
    }
  }

  lemma {:induction false} DrawnDistinct(r: Request, n: nat)
    requires n <= |r.drawOrder|
    ensures DistinctParts(Drawn(r, n)) <==> NoRepeat(r, n)
  {
    if n > 0 {
      DrawnDistinct(r, n - 1);
      if HasVisual(r, n - 1) {
        var v := FindPart(r.visuals, r.drawOrder[n - 1]).value;
        FoundPart(r.visuals, r.drawOrder[n - 1]);
        DistinctNext(Drawn(r, n - 1), Entry(r.id, v));
        CountPositive(Drawn(r, n - 1), v.part);
        DrawnEntries(r, n - 1);
        DrawnNames(r, n - 1, v.part);
      } else {
        assert Drawn(r, n) == Drawn(r, n - 1);
      }
    }
  }

  /** A part is among the first entries exactly when it is drawn so far and has a visual. */
  lemma DrawnNames(r: Request, n: nat, part: string)
    requires n <= |r.drawOrder|
    ensures (exists k :: 0 <= k < |Drawn(r, n)| && Drawn(r, n)[k].part == part)
      <==> exists i :: 0 <= i < n && HasVisual(r, i) && r.drawOrder[i] == part
  {
    DrawnEntries(r, n);
    if k :| 0 <= k < |Drawn(r, n)| && Drawn(r, n)[k].part == part {
      assert Drawn(r, n)[k] in Drawn(r, n);
      var i :| 0 <= i < n && HasVisual(r, i)
        && Drawn(r, n)[k] == Entry(r.id, FindPart(r.visuals, r.drawOrder[i]).value);
      FoundPart(r.visuals, r.drawOrder[i]);
    }
    if i :| 0 <= i < n && HasVisual(r, i) && r.drawOrder[i] == part {
      FoundPart(r.visuals, r.drawOrder[i]);
      var e := Entry(r.id, FindPart(r.visuals, r.drawOrder[i]).value);
      assert e in Drawn(r, n) && e.part == part;
    }
  }

  // The condition.

  /** What the checker will ask of one drawn visual, said of the builder's input. */
  predicate Fits(v: Visual, e: Expected) {
    && v.part != "" && (e.required == [] || v.part in e.required)
    && (v.bone == "" || v.bone == v.part) && (e.bones == {} || v.part in e.bones)
    && GoodRect(v.rect, e) && |v.pivot| == 2
  }

  ghost predicate DistinctKeys(r: Request) {
    forall v, w :: IsDrawn(r, v) && IsDrawn(r, w) && v.part != w.part ==> KeyOf(r.id, v) != KeyOf(r.id, w)
  }

  /** A part that the checker will look for is drawn. */
  predicate Provided(r: Request, part: string) { part in r.drawOrder && FindPart(r.visuals, part).Some? }

  /** The id and the atlas suit the checker. */
  predicate ReadyHeader(r: Request, e: Expected) {
    && !Blank(r.id)
    && (if r.atlas.file != "" then FileName(r.atlas.file) else '/' !in r.id && '\\' !in r.id)
    && (e.width > 0.0 && e.height > 0.0 ==> r.atlas.width == e.width && r.atlas.height == e.height)
  }

  ghost predicate ReadyVisuals(r: Request, e: Expected) {
    (forall v :: IsDrawn(r, v) ==> Fits(v, e)) && NoRepeat(r, |r.drawOrder|) && DistinctKeys(r)
  }

  /** A complete pack provides every part the checker looks for, as many as it requires. */
  predicate ReadyLooks(r: Request, e: Expected) {
    r.complete ==>
      && (forall i :: 0 <= i < |e.drawOrder| ==> Provided(r, e.drawOrder[i]))
      && (e.required != [] ==> |e.drawOrder| == |e.required|)
  }

  /** The condition on the builder's input under which what it builds is accepted. */
  ghost predicate Ready(r: Request, e: Expected) {
    ReadyHeader(r, e) && (exists v :: IsDrawn(r, v)) && ReadyVisuals(r, e) && ReadyLooks(r, e)
  }

  lemma EntryFits(id: string, v: Visual, e: Expected)
    ensures GoodVisual(Entry(id, v), e) <==> Fits(v, e)
  {
    assert |id + "." + v.part + ".side"| > 0;
  }

  // The base appearance.

  ghost predicate FreshKeys(entries: seq<Visual>) {
    forall i :: 0 <= i < |entries| ==> FreshKey(entries, i) && entries[i].key != ""
  }

  lemma {:induction false} AppearanceIs(entries: seq<Visual>)
    requires DistinctParts(entries)
    ensures forall e :: e in entries ==> e.part in Appearance(entries) && Appearance(entries)[e.part] == e.key
    ensures forall p :: p in Appearance(entries) ==> exists e :: e in entries && e.part == p
  {
    if entries != [] {
      var n := |entries| - 1;
      AppearanceIs(entries[..n]);
      forall p | p in Appearance(entries) ensures exists e :: e in entries && e.part == p {
        if p != entries[n].part {
          assert p in Appearance(entries[..n]);
          var e :| e in entries[..n] && e.part == p;
          assert e in entries;
        }
      }
      forall e | e in entries ensures e.part in Appearance(entries) && Appearance(entries)[e.part] == e.key {
        var i :| 0 <= i < |entries| && entries[i] == e;
        if i < n { assert e in entries[..n] && entries[i].part != entries[n].part; }
      }
    }
  }

  lemma FreshKeyFinds(entries: seq<Visual>, e: Visual)
    requires FreshKeys(entries) && e in entries
    ensures ByKey(entries, e.key) == Some(e)
  {
    ByKeyFinds(entries, e.key);
    var i :| 0 <= i < |entries| && entries[i] == e;
    var j :| 0 <= j < |entries| && entries[j] == ByKey(entries, e.key).value;
    assert !(i < j) && !(j < i);
  }

  /** In a built pack with distinct parts and keys every part shows its own entry, or is absent. */
  lemma BuiltLooks(r: Request, part: string)
    requires Buildable(r)
    requires DistinctParts(Drawn(r, |r.drawOrder|)) && FreshKeys(Drawn(r, |r.drawOrder|))
    ensures LookAt(ManifestOf(r), part) ==
      if Provided(r, part) then Shown(Entry(r.id, FindPart(r.visuals, part).value)) else Absent
  {
    var m := ManifestOf(r);
    AppearanceIs(m.visuals);
    DrawnIs(r);
    FoundPart(r.visuals, part);
    if Provided(r, part) {
      var e := Entry(r.id, FindPart(r.visuals, part).value);
      assert IsDrawn(r, FindPart(r.visuals, part).value) && e in m.visuals;
      FreshKeyFinds(m.visuals, e);
      var i :| 0 <= i < |m.visuals| && m.visuals[i] == e;
    }
    forall e | e in m.visuals ensures Provided(r, e.part) {
      var v :| IsDrawn(r, v) && e == Entry(r.id, v);
      TheVisual(r, v);
    }
  }

  lemma {:induction false} ResolvedAll(m: Manifest, order: seq<string>, n: nat)
    requires n <= |order| && forall i :: 0 <= i < n ==> LookAt(m, order[i]).Shown?
    ensures |Resolved(m, order, n)| == n
  {
    if n > 0 { ResolvedAll(m, order, n - 1); }
  }

  /** Distinct keys among the drawn visuals make the entries' keys fresh, and conversely. */
  lemma KeysFresh(r: Request)
    requires Buildable(r) && DistinctParts(Drawn(r, |r.drawOrder|))
    ensures FreshKeys(Drawn(r, |r.drawOrder|)) <==> DistinctKeys(r)
  {
    var d := Drawn(r, |r.drawOrder|);
    DrawnIs(r);
    if DistinctKeys(r) {
      forall i | 0 <= i < |d| ensures FreshKey(d, i) && d[i].key != "" {
        assert d[i] in d;
        var v :| IsDrawn(r, v) && d[i] == Entry(r.id, v);
        assert |r.id + "." + v.part + ".side"| > 0;
        forall j | 0 <= j < i ensures d[j].key != d[i].key {
          assert d[j] in d;
          var w :| IsDrawn(r, w) && d[j] == Entry(r.id, w);
        }
      }
    }
    if FreshKeys(d) {
      forall v, w | IsDrawn(r, v) && IsDrawn(r, w) && v.part != w.part ensures KeyOf(r.id, v) != KeyOf(r.id, w) {
        FreshKeyFinds(d, Entry(r.id, v));
        FreshKeyFinds(d, Entry(r.id, w));
      }
    }
  }

  lemma VisualsAccepted(r: Request, e: Expected)
    requires Buildable(r)
    ensures GoodVisuals(Drawn(r, |r.drawOrder|), e) <==> ReadyVisuals(r, e)
  {
    var d := Drawn(r, |r.drawOrder|);
    DrawnIs(r);
    DrawnDistinct(r, |r.drawOrder|);
    if DistinctParts(d) { KeysFresh(r); }
    forall v ensures GoodVisual(Entry(r.id, v), e) <==> Fits(v, e) { EntryFits(r.id, v, e); }
    if forall v :: IsDrawn(r, v) ==> Fits(v, e) {
      forall i | 0 <= i < |d| ensures GoodVisual(d[i], e) {
        assert d[i] in d;
        var v :| IsDrawn(r, v) && d[i] == Entry(r.id, v);
      }
    } else {
      var v :| IsDrawn(r, v) && !Fits(v, e);
      var i :| 0 <= i < |d| && d[i] == Entry(r.id, v);
      assert !GoodVisual(d[i], e);
    }
  }

  lemma LooksAccepted(r: Request, e: Expected)
    requires Buildable(r)
    requires DistinctParts(Drawn(r, |r.drawOrder|)) && FreshKeys(Drawn(r, |r.drawOrder|))
    ensures GoodLooks(ManifestOf(r), e) <==> ReadyLooks(r, e)
  {
    var m := ManifestOf(r);
    forall i | 0 <= i < |e.drawOrder|
      ensures LookAt(m, e.drawOrder[i]).Shown? <==> Provided(r, e.drawOrder[i])
      ensures LookAt(m, e.drawOrder[i]).Shown? || LookAt(m, e.drawOrder[i]).Absent?
    {
      BuiltLooks(r, e.drawOrder[i]);
    }
    assert "complete" != "partial_dev" by { assert |"complete"| == 8 && |"partial_dev"| == 11; }
    if forall i :: 0 <= i < |e.drawOrder| ==> Provided(r, e.drawOrder[i]) {
      ResolvedAll(m, e.drawOrder, |e.drawOrder|);
    }
  }

  lemma SlashFree(id: string)
    ensures FileName(id + ".side.atlas.png") <==> '/' !in id && '\\' !in id
  {
    var s := id + ".side.atlas.png";
    assert forall c :: c in s <==> c in id || c in ".side.atlas.png";
    assert '/' !in ".side.atlas.png" && '\\' !in ".side.atlas.png";
  }

  /**
   Writer and checker agree: the checker accepts a built pack, for whatever it expects, if and only if
   the builder's input was ready for it.
   */
  lemma BuiltIsAcceptedIff(r: Request, e: Expected)
    requires Buildable(r)
    ensures Accepted(ManifestOf(r), e) <==> Ready(r, e)
  {
    var d := Drawn(r, |r.drawOrder|);
    HeaderAccepted(r, e);
    VisualsAccepted(r, e);
    DrawnSome(r);
    if GoodVisuals(d, e) {
      KeysFresh(r);
      LooksAccepted(r, e);
    }
  }

  /** Two parts, the first with the key that the builder makes up for the second. */
  const CLASHING := Request(
    "x", 1.0, AtlasInfo("", 1.0, 1.0),
    [Visual("torso", "", "x.head.side", [0.0, 0.0, 1.0, 1.0], [0.5, 0.5]),
     Visual("head", "", "", [0.0, 0.0, 1.0, 1.0], [0.5, 0.5])],
    false, ["torso", "head"])

  lemma ClashingIsBuildable()
    ensures Buildable(CLASHING)
    ensures IsDrawn(CLASHING, CLASHING.visuals[0]) && IsDrawn(CLASHING, CLASHING.visuals[1])
  {
    assert "torso"[0] != "head"[0];
  }

  lemma ClashingIsFit(e: Expected)
    requires e == Expected(1.0, 1.0, [], ["torso", "head"], {})
    ensures ReadyHeader(CLASHING, e) && NoRepeat(CLASHING, 2) && forall v :: IsDrawn(CLASHING, v) ==> Fits(v, e)
  {
    assert "torso"[0] != "head"[0] && !Space(CLASHING.id[0]);
    forall v | v in CLASHING.visuals ensures Fits(v, e) {
      assert GoodRect(v.rect, e);
    }
  }

  lemma ClashingKeys()
    ensures KeyOf("x", CLASHING.visuals[0]) == KeyOf("x", CLASHING.visuals[1])
    ensures CLASHING.visuals[0].part != CLASHING.visuals[1].part
  {
    assert "x" + "." + "head" + ".side" == "x.head.side";
    assert "torso"[0] != "head"[0];
  }

  /** The builder takes it and all else is in order, but the checker refuses what is built, whatever it expects. */
  lemma MadeUpKeyClashes(e: Expected)
    ensures Buildable(CLASHING) && !Accepted(ManifestOf(CLASHING), e)
    ensures var fitting := Expected(1.0, 1.0, [], ["torso", "head"], {});
      ReadyHeader(CLASHING, fitting) && NoRepeat(CLASHING, 2) && forall v :: IsDrawn(CLASHING, v) ==> Fits(v, fitting)
  {
    ClashingIsBuildable();
    ClashingIsFit(Expected(1.0, 1.0, [], ["torso", "head"], {}));
    ClashingKeys();
    BuiltIsAcceptedIff(CLASHING, e);
  }

  lemma HeaderAccepted(r: Request, e: Expected)
    requires Buildable(r)
    ensures GoodHeader(ManifestOf(r)) && GoodAtlas(ManifestOf(r).atlas, e) <==> ReadyHeader(r, e)
  {
    SlashFree(r.id);
  }

  lemma DrawnSome(r: Request)
    requires Buildable(r)
    ensures Drawn(r, |r.drawOrder|) != [] <==> exists v :: IsDrawn(r, v)
  {
    DrawnIs(r);
    var d := Drawn(r, |r.drawOrder|);
    if d != [] { assert d[0] in d; }
  }

  lemma {:induction false} ResolvedDrawn(r: Request, m: Manifest, n: nat)
    requires n <= |r.drawOrder|
    requires forall i :: 0 <= i < n ==>
      LookAt(m, r.drawOrder[i]) ==
        if HasVisual(r, i) then Shown(Entry(r.id, FindPart(r.visuals, r.drawOrder[i]).value)) else Absent
    ensures Resolved(m, r.drawOrder, n) == Drawn(r, n)
  {
    if n > 0 { ResolvedDrawn(r, m, n - 1); }
  }

  /** Round trip: an accepted pack, resolved in the order it was drawn in, gives back exactly the written visuals. */
  lemma ResolvesToWritten(r: Request, e: Expected)
    requires Buildable(r) && Accepted(ManifestOf(r), e) && e.drawOrder == r.drawOrder
    ensures Resolved(ManifestOf(r), e.drawOrder, |e.drawOrder|) == ManifestOf(r).visuals
  {
    var m := ManifestOf(r);
    assert FreshKeys(m.visuals);
    forall i | 0 <= i < |r.drawOrder|
      ensures LookAt(m, r.drawOrder[i]) ==
        if HasVisual(r, i) then Shown(Entry(r.id, FindPart(r.visuals, r.drawOrder[i]).value)) else Absent
    {
      BuiltLooks(r, r.drawOrder[i]);
    }
    ResolvedDrawn(r, m, |r.drawOrder|);
  }

  /** Keys that the builder makes up never collide with each other. */
  lemma DefaultKeysDistinct(id: string, v: Visual, w: Visual)
    requires v.key == "" && w.key == "" && KeyOf(id, v) == KeyOf(id, w)
    ensures v.part == w.part
  {
    var a, b := KeyOf(id, v), KeyOf(id, w);
    assert a[|id| + 1..|a| - 5] == v.part && b[|id| + 1..|b| - 5] == w.part;
  }

  // Packs made from an atlas plan.

  function RectOf(p: Atlas.Placement): seq<real> {
    [p.x as real, p.y as real, p.sprite.width as real, p.sprite.height as real]
  }

  function Sized(plan: Atlas.Plan, e: Expected): Expected
    requires plan.Atlas?
  {
    e.(width := plan.width as real, height := plan.height as real)
  }

  /** Every rectangle of a plan passes the checker's test against that plan's atlas. */
  lemma PlannedRectFits(
      rectangles: seq<Atlas.Rectangle>, o: Atlas.Options, idLess: (string, string) -> bool, i: nat, e: Expected)
    requires o.padding >= 0 && Atlas.PlanOf(rectangles, o, idLess).Atlas?
    requires i < |Atlas.PlanOf(rectangles, o, idLess).placements|
    ensures var plan := Atlas.PlanOf(rectangles, o, idLess); GoodRect(RectOf(plan.placements[i]), Sized(plan, e))
  {
    var plan := Atlas.PlanOf(rectangles, o, idLess);
    PlacedInside(rectangles, o, idLess, i);
    InsideFits(plan.placements[i], plan, o.padding, e);
  }

  lemma PlacedInside(rectangles: seq<Atlas.Rectangle>, o: Atlas.Options, idLess: (string, string) -> bool, i: nat)
    requires o.padding >= 0 && Atlas.PlanOf(rectangles, o, idLess).Atlas?
    requires i < |Atlas.PlanOf(rectangles, o, idLess).placements|
    ensures var plan := Atlas.PlanOf(rectangles, o, idLess);
      var p := plan.placements[i];
      Atlas.Inside(p, plan.width, plan.height, o.padding) && p.sprite.width > 0 && p.sprite.height > 0
  {
    var plan := Atlas.PlanOf(rectangles, o, idLess);
    Atlas.PlanIsSound(rectangles, o, idLess);
    Atlas.CheckedPlan(rectangles, o, plan);
    Atlas.CheckedSprites(rectangles, o);
    var placed := Atlas.PlacedSprites(plan.placements);
    assert placed[i] in multiset(placed) && placed[i] in multiset(Atlas.Sprites(rectangles));
  }

  lemma InsideFits(p: Atlas.Placement, plan: Atlas.Plan, padding: int, e: Expected)
    requires plan.Atlas? && padding >= 0 && Atlas.Inside(p, plan.width, plan.height, padding)
    requires p.sprite.width > 0 && p.sprite.height > 0
    ensures GoodRect(RectOf(p), Sized(plan, e))
  {
  }

  /** The visual is named after one of the expected parts and shows a rectangle of the plan. */
  ghost predicate FromPlan(v: Visual, plan: Atlas.Plan, e: Expected)
    requires plan.Atlas?
  {
    && v.part != "" && v.key == "" && (v.bone == "" || v.bone == v.part) && |v.pivot| == 2
    && (e.required == [] || v.part in e.required) && (e.bones == {} || v.part in e.bones)
    && exists i :: 0 <= i < |plan.placements| && v.rect == RectOf(plan.placements[i])
  }

  /**
   From packing to checking: a pack built on a plan's atlas, from the plan's rectangles with made-up keys, is
   accepted and reads back whole, provided its id makes a file name and, when it is complete, all expected
   parts are there.
   */
  lemma PlannedPackIsAccepted(
      rectangles: seq<Atlas.Rectangle>, o: Atlas.Options, idLess: (string, string) -> bool, r: Request, e: Expected)
    requires o.padding >= 0 && Atlas.PlanOf(rectangles, o, idLess).Atlas?
    requires var plan := Atlas.PlanOf(rectangles, o, idLess);
      && r.atlas == AtlasInfo("", plan.width as real, plan.height as real)
      && forall v :: v in r.visuals ==> FromPlan(v, plan, e)
    requires r.ppu > 0.0 && !Blank(r.id) && '/' !in r.id && '\\' !in r.id && DistinctParts(r.visuals)
    requires e.drawOrder == r.drawOrder && NoRepeat(r, |r.drawOrder|) && exists v :: IsDrawn(r, v)
    requires r.complete ==>
      && (forall i :: 0 <= i < |e.drawOrder| ==> Provided(r, e.drawOrder[i]))
      && (e.required != [] ==> |e.drawOrder| == |e.required|)
    ensures var m := ManifestOf(r);
      var expected := Sized(Atlas.PlanOf(rectangles, o, idLess), e);
      Buildable(r) && Accepted(m, expected) && Resolved(m, expected.drawOrder, |expected.drawOrder|) == m.visuals
  {
    var expected := Sized(Atlas.PlanOf(rectangles, o, idLess), e);
    PlannedBuildable(rectangles, o, idLess, r);
    PlannedVisuals(rectangles, o, idLess, r, e);
    BuiltIsAcceptedIff(r, expected);
    ResolvesToWritten(r, expected);
  }

  lemma PlannedBuildable(rectangles: seq<Atlas.Rectangle>, o: Atlas.Options, idLess: (string, string) -> bool,
      r: Request)
    requires o.padding >= 0 && Atlas.PlanOf(rectangles, o, idLess).Atlas?
    requires var plan := Atlas.PlanOf(rectangles, o, idLess);
      r.atlas == AtlasInfo("", plan.width as real, plan.height as real)
    requires r.ppu > 0.0 && !Blank(r.id) && DistinctParts(r.visuals)
    ensures Buildable(r)
  {
    Atlas.PlanIsSound(rectangles, o, idLess);
  }

  lemma PlannedVisuals(
      rectangles: seq<Atlas.Rectangle>, o: Atlas.Options, idLess: (string, string) -> bool, r: Request, e: Expected)
    requires o.padding >= 0 && Atlas.PlanOf(rectangles, o, idLess).Atlas?
    requires forall v :: v in r.visuals ==> FromPlan(v, Atlas.PlanOf(rectangles, o, idLess), e)
    requires NoRepeat(r, |r.drawOrder|)
    ensures ReadyVisuals(r, Sized(Atlas.PlanOf(rectangles, o, idLess), e))
  {
    var plan := Atlas.PlanOf(rectangles, o, idLess);
    forall v | IsDrawn(r, v) ensures Fits(v, Sized(plan, e)) {
      var i :| 0 <= i < |plan.placements| && v.rect == RectOf(plan.placements[i]);
      PlannedRectFits(rectangles, o, idLess, i, e);
    }
    forall v, w | IsDrawn(r, v) && IsDrawn(r, w) && v.part != w.part ensures KeyOf(r.id, v) != KeyOf(r.id, w) {
      if KeyOf(r.id, v) == KeyOf(r.id, w) { DefaultKeysDistinct(r.id, v, w); }
    }
  }
}
