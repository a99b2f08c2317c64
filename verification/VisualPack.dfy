/**
 The visual pack's writer and its checker in `tools/Character part lab/character_lab_runtime.js`:
 `buildVisualPackManifest` and `resolveVisualPack`. Missing texts are empty texts, as the code treats both alike.
 */
module VisualPack {
  import opened Basics

  /** One visual, of the builder's input or of a manifest. */
  datatype Visual = Visual(part: string, bone: string, key: string, rect: seq<real>, pivot: seq<real>)

  datatype AtlasInfo = AtlasInfo(file: string, width: real, height: real)

  datatype Manifest = Manifest(
    schemaVersion: int, kind: string, id: string, rig: string, view: string, facing: string, ppu: real,
    completeness: string, atlas: AtlasInfo, visuals: seq<Visual>, appearance: map<string, string>,
      drawOrder: seq<string>)

  datatype Request = Request(
    id: string, ppu: real, atlas: AtlasInfo, visuals: seq<Visual>, complete: bool, drawOrder: seq<string>)

  datatype Result = Built(manifest: Manifest) | MissingId | BadScale | BadDimensions | DuplicatePart(part: string)

  predicate WholeNumber(x: real) { x.Floor as real == x }

  predicate GoodDimensions(atlas: AtlasInfo) {
    WholeNumber(atlas.width) && WholeNumber(atlas.height) && atlas.width > 0.0 && atlas.height > 0.0
  }

  // The writer.

  function FindPart(visuals: seq<Visual>, part: string): Option<Visual> {
    if visuals == [] then None
    else if visuals[|visuals| - 1].part == part then Some(visuals[|visuals| - 1])
    else FindPart(visuals[..|visuals| - 1], part)
  }

  function KeyOf(id: string, v: Visual): string { if v.key != "" then v.key else id + "." + v.part + ".side" }

  /** The manifest's entry for a visual. */
  function Entry(id: string, v: Visual): Visual {
    Visual(v.part, if v.bone != "" then v.bone else v.part, KeyOf(id, v), v.rect, v.pivot)
  }

  /** The entries of the drawn parts, in draw order; a part without a visual is passed over. */
  function Drawn(r: Request, n: nat): seq<Visual>
    requires n <= |r.drawOrder|
  {
    if n == 0 then []
    else
      var v := FindPart(r.visuals, r.drawOrder[n - 1]);
      Drawn(r, n - 1) + if v.Some? then [Entry(r.id, v.value)] else []
  }

  /** `base_appearance`: each entry's part to its key, later entries winning. */
  function Appearance(entries: seq<Visual>): map<string, string> {
    if entries == [] then map[]
    else
      var last := entries[|entries| - 1];
      Appearance(entries[..|entries| - 1])[last.part := last.key]
  }

  function PartsOf(entries: seq<Visual>): seq<string> {
    seq(|entries|, i requires 0 <= i < |entries| => entries[i].part)
  }

  predicate DistinctParts(visuals: seq<Visual>) {
    forall i, j :: 0 <= i < j < |visuals| ==> visuals[i].part != visuals[j].part
  }

  function ManifestOf(r: Request): Manifest {
    var entries := Drawn(r, |r.drawOrder|);
    Manifest(
      1, "purgatory_visual_pack", r.id, "humanoid_v0", "side", "right", r.ppu,
      if r.complete then "complete" else "partial_dev",
      AtlasInfo(if r.atlas.file != "" then r.atlas.file else r.id + ".side.atlas.png", r.atlas.width, r.atlas.height),
      entries, Appearance(entries), PartsOf(entries))
  }

  /** What the builder accepts. */
  predicate Buildable(r: Request) {
    r.id != "" && r.ppu > 0.0 && GoodDimensions(r.atlas) && DistinctParts(r.visuals)
  }

  lemma {:induction false} FoundPart(visuals: seq<Visual>, part: string)
    ensures match FindPart(visuals, part)
      case None => forall v :: v in visuals ==> v.part != part
      case Some(v) => v in visuals && v.part == part
  {
    if visuals != [] { FoundPart(visuals[..|visuals| - 1], part); }
  }

  /** The builder's map from parts to visuals, all of them distinct so far. */
  ghost predicate ByParts(byPart: map<string, Visual>, visuals: seq<Visual>) {
    DistinctParts(visuals) && forall p :: FindPart(visuals, p) == if p in byPart then Some(byPart[p]) else None
  }

  lemma ByPartsNext(byPart: map<string, Visual>, visuals: seq<Visual>, v: Visual)
    requires ByParts(byPart, visuals)
    ensures v.part in byPart ==> !DistinctParts(visuals + [v])
    ensures v.part !in byPart ==> ByParts(byPart[v.part := v], visuals + [v])
  {
    var all := visuals + [v];
    assert all[..|visuals|] == visuals;
    FoundPart(visuals, v.part);
    assert FindPart(visuals, v.part) == if v.part in byPart then Some(byPart[v.part]) else None;
    if v.part in byPart {
      var i :| 0 <= i < |visuals| && visuals[i] == byPart[v.part];
      assert all[i].part == all[|visuals|].part;
    }
  }

  lemma RepeatStays(visuals: seq<Visual>, n: nat)
    requires n <= |visuals| && !DistinctParts(visuals[..n])
    ensures !DistinctParts(visuals)
  {
  }

  /** The `j`-th visual is the first whose part was there before. */
  ghost predicate FirstRepeat(visuals: seq<Visual>, j: int, part: string) {
    && 0 <= j < |visuals| && visuals[j].part == part && DistinctParts(visuals[..j])
    && exists i :: 0 <= i < j && visuals[i].part == part
  }

  /** `buildVisualPackManifest` */
  method BuildVisualPackManifest(r: Request) returns (result: Result)
    ensures result.Built? <==> Buildable(r)
    ensures result.Built? ==> result.manifest == ManifestOf(r)
    ensures result.MissingId? <==> r.id == ""
    ensures result.BadScale? <==> r.id != "" && r.ppu <= 0.0
    ensures result.BadDimensions? <==> r.id != "" && r.ppu > 0.0 && !GoodDimensions(r.atlas)
    ensures result.DuplicatePart? ==> exists j :: FirstRepeat(r.visuals, j, result.part)
  {
    if r.id == "" { return MissingId; }
    if r.ppu <= 0.0 { return BadScale; }
    if !GoodDimensions(r.atlas) { return BadDimensions; }
    var byPart: map<string, Visual> := map[];
    for i := 0 to |r.visuals|
      invariant ByParts(byPart, r.visuals[..i])
    {
      var visual := r.visuals[i];
      assert r.visuals[..i + 1] == r.visuals[..i] + [visual];
      ByPartsNext(byPart, r.visuals[..i], visual);
      if visual.part in byPart {
        RepeatStays(r.visuals, i + 1);
        FoundPart(r.visuals[..i], visual.part);
        var earlier :| 0 <= earlier < i && r.visuals[..i][earlier].part == visual.part;
        assert r.visuals[earlier].part == visual.part && FirstRepeat(r.visuals, i, visual.part);
        return DuplicatePart(visual.part);
      }
      byPart := byPart[visual.part := visual];
    }
    assert r.visuals[..|r.visuals|] == r.visuals;
    var ordered: seq<Visual> := [];
    var baseAppearance: map<string, string> := map[];
    for i := 0 to |r.drawOrder|
      invariant ordered == Drawn(r, i) && baseAppearance == Appearance(ordered)
    {
      var part := r.drawOrder[i];
      if part in byPart {
        FoundPart(r.visuals, part);
        ordered := ordered + [Entry(r.id, byPart[part])];
        assert ordered[..|ordered| - 1] == Drawn(r, i);
        baseAppearance := baseAppearance[part := KeyOf(r.id, byPart[part])];
      }
    }
    result := Built(Manifest(
      1, "purgatory_visual_pack", r.id, "humanoid_v0", "side", "right", r.ppu,
      if r.complete then "complete" else "partial_dev",
      AtlasInfo(if r.atlas.file != "" then r.atlas.file else r.id + ".side.atlas.png", r.atlas.width, r.atlas.height),
      ordered, baseAppearance, PartsOf(ordered)));
  }

  // What the checker accepts, stated without loops.

  datatype Expected = Expected(width: real, height: real, required: seq<string>, drawOrder: seq<string>,
    bones: set<string>)

  /** `trim` leaves nothing. */
  predicate Blank(s: string) { forall i :: 0 <= i < |s| ==> Space(s[i]) || s[i] as int == 0xFEFF }

  predicate FileName(s: string) { s != "" && '/' !in s && '\\' !in s }

  predicate GoodHeader(m: Manifest) {
    && m.schemaVersion == 1 && m.kind == "purgatory_visual_pack" && m.rig == "humanoid_v0" && m.view == "side"
    && (m.facing == "" || m.facing == "right") && !Blank(m.id) && m.ppu > 0.0
    && (m.completeness == "partial_dev" || m.completeness == "complete")
  }

  predicate GoodAtlas(a: AtlasInfo, e: Expected) {
    FileName(a.file) && GoodDimensions(a)
      && (e.width > 0.0 && e.height > 0.0 ==> a.width == e.width && a.height == e.height)
  }

  predicate GoodRect(rect: seq<real>, e: Expected) {
    && |rect| == 4 && (forall i :: 0 <= i < 4 ==> WholeNumber(rect[i]))
    && rect[0] >= 0.0 && rect[1] >= 0.0 && rect[2] > 0.0 && rect[3] > 0.0
    && (e.width > 0.0 ==> rect[0] + rect[2] <= e.width) && (e.height > 0.0 ==> rect[1] + rect[3] <= e.height)
  }

  predicate GoodVisual(v: Visual, e: Expected) {
    && v.part != "" && (e.required == [] || v.part in e.required) && v.key != ""
    && v.bone == v.part && (e.bones == {} || v.bone in e.bones)
    && GoodRect(v.rect, e) && |v.pivot| == 2
  }

  /** No earlier visual has this key. */
  predicate FreshKey(visuals: seq<Visual>, i: nat)
    requires i < |visuals|
  {
    forall j :: 0 <= j < i ==> visuals[j].key != visuals[i].key
  }

  /** The first visual with the key, which is the one the checker's map keeps. */
  function ByKey(visuals: seq<Visual>, key: string): Option<Visual> {
    if visuals == [] then None
    else
      var earlier := ByKey(visuals[..|visuals| - 1], key);
      if earlier.Some? then earlier
      else if key != "" && visuals[|visuals| - 1].key == key then Some(visuals[|visuals| - 1]) else None
  }

  /** What the base appearance gives for a part. */
  datatype Look = Absent | Dangling(key: string) | OtherPart(part: string) | Shown(visual: Visual)

  function LookAt(m: Manifest, part: string): Look {
    var key := if part in m.appearance then m.appearance[part] else "";
    if key == "" then Absent
    else
      var v := ByKey(m.visuals, key);
      if v.None? then Dangling(key) else if v.value.part != part then OtherPart(v.value.part) else Shown(v.value)
  }

  predicate GoodLook(m: Manifest, part: string) {
    var look := LookAt(m, part);
    look.Shown? || (look.Absent? && m.completeness != "complete")
  }

  /** The visuals that the first `n` drawn parts resolve to. */
  function Resolved(m: Manifest, order: seq<string>, n: nat): seq<Visual>
    requires n <= |order|
  {
    if n == 0 then []
    else
      var look := LookAt(m, order[n - 1]);
      Resolved(m, order, n - 1) + if look.Shown? then [look.visual] else []
  }

  /** The visuals are good, with distinct parts and keys. */
  predicate GoodVisuals(visuals: seq<Visual>, e: Expected) {
    && (forall i :: 0 <= i < |visuals| ==> GoodVisual(visuals[i], e) && FreshKey(visuals, i))
    && DistinctParts(visuals)
  }

  /** The base appearance covers the drawn parts as far as the completeness asks. */
  predicate GoodLooks(m: Manifest, e: Expected) {
    && (forall i :: 0 <= i < |e.drawOrder| ==> GoodLook(m, e.drawOrder[i]))
    && (m.completeness == "complete" && e.required != [] ==> |Resolved(m, e.drawOrder, |e.drawOrder|)| == |e.required|)
  }

  predicate Accepted(m: Manifest, e: Expected) {
    GoodHeader(m) && GoodAtlas(m.atlas, e) && m.visuals != [] && GoodVisuals(m.visuals, e) && GoodLooks(m, e)
  }

  // The checker, with its loops. Each issue stands for one message.

  datatype Issue =
    | BadHeader(field: string) | BadAtlas(field: string) | NoVisuals | BadPart(part: string) | BadKey(key: string)
    | DuplicateKey(key: string) | BadBone(bone: string) | BadRect | OutsideAtlas | BadPivot | RepeatedPart(part: string)
    | MissingLook(part: string) | DanglingLook(part: string, key: string) | WrongLook(part: string) | WrongCount(n: nat)

  method CheckHeader(m: Manifest) returns (issues: seq<Issue>)
    ensures issues == [] <==> GoodHeader(m)
  {
    issues := [];
    if m.schemaVersion != 1 { issues := issues + [BadHeader("schema_version")]; }
    if m.kind != "purgatory_visual_pack" { issues := issues + [BadHeader("kind")]; }
    if m.rig != "humanoid_v0" { issues := issues + [BadHeader("rig")]; }
    if m.view != "side" { issues := issues + [BadHeader("view")]; }
    if m.facing != "" && m.facing != "right" { issues := issues + [BadHeader("authored_facing")]; }
    if Blank(m.id) { issues := issues + [BadHeader("id")]; }
    if m.ppu <= 0.0 { issues := issues + [BadHeader("pixels_per_unit")]; }
    if m.completeness != "partial_dev" && m.completeness != "complete" {
      issues := issues + [BadHeader("completeness")];
    }
  }

  method CheckAtlas(a: AtlasInfo, e: Expected) returns (issues: seq<Issue>)
    ensures issues == [] <==> GoodAtlas(a, e)
  {
    issues := [];
    if !FileName(a.file) { issues := issues + [BadAtlas("file")]; }
    if !GoodDimensions(a) { issues := issues + [BadAtlas("dimensions")]; }
    if e.width > 0.0 && e.height > 0.0 && (a.width != e.width || a.height != e.height) {
      issues := issues + [BadAtlas("size")];
    }
  }

  /** The body of the visual loop, but for the two maps. */
  method CheckVisual(v: Visual, e: Expected) returns (issues: seq<Issue>)
    ensures issues == [] && v.key != "" <==> GoodVisual(v, e)
  {
    issues := [];
    if v.part == "" {
      issues := issues + [BadPart("")];
    } else if |e.required| > 0 && v.part !in e.required {
      issues := issues + [BadPart(v.part)];
    }
    if v.bone == "" || (e.bones != {} && v.bone !in e.bones) { issues := issues + [BadBone(v.bone)]; }
    if v.part != "" && v.bone != "" && v.part != v.bone { issues := issues + [BadBone(v.bone)]; }
    if |v.rect| != 4 || exists i :: 0 <= i < |v.rect| && !WholeNumber(v.rect[i]) {
      issues := issues + [BadRect];
    } else {
      var x, y, width, height := v.rect[0], v.rect[1], v.rect[2], v.rect[3];
      if x < 0.0 || y < 0.0 || width <= 0.0 || height <= 0.0
        || (e.width > 0.0 && x + width > e.width) || (e.height > 0.0 && y + height > e.height)
      {
        issues := issues + [OutsideAtlas];
      }
    }
    if |v.pivot| != 2 { issues := issues + [BadPivot]; }
  }

  function CountOf(visuals: seq<Visual>, part: string): nat {
    if visuals == [] then 0
    else CountOf(visuals[..|visuals| - 1], part) + if visuals[|visuals| - 1].part == part then 1 else 0
  }

  lemma {:induction false} CountPositive(visuals: seq<Visual>, part: string)
    ensures CountOf(visuals, part) > 0 <==> exists i :: 0 <= i < |visuals| && visuals[i].part == part
  {
    if visuals != [] {
      var n := |visuals| - 1;
      CountPositive(visuals[..n], part);
      if i :| 0 <= i < |visuals| && visuals[i].part == part {
        if i < n { assert visuals[..n][i].part == part; }
      }
    }
  }

  ghost predicate CountedOnce(visuals: seq<Visual>) { forall p :: CountOf(visuals, p) <= 1 }

  lemma CountNext(visuals: seq<Visual>, v: Visual, p: string)
    ensures CountOf(visuals + [v], p) == CountOf(visuals, p) + if p == v.part then 1 else 0
  {
    assert (visuals + [v])[..|visuals|] == visuals;
  }

  lemma DistinctNext(visuals: seq<Visual>, v: Visual)
    ensures DistinctParts(visuals + [v]) <==> DistinctParts(visuals) && CountOf(visuals, v.part) == 0
  {
    CountPositive(visuals, v.part);
    var all := visuals + [v];
    assert forall i :: 0 <= i < |visuals| ==> all[i] == visuals[i];
    if CountOf(visuals, v.part) > 0 {
      var i :| 0 <= i < |visuals| && visuals[i].part == v.part;
      assert all[i].part == all[|visuals|].part;
    } else if DistinctParts(visuals) {
      forall i, j | 0 <= i < j < |all| ensures all[i].part != all[j].part {
        if j == |visuals| { assert visuals[i].part != v.part; }
      }
    } else {
      var i, j :| 0 <= i < j < |visuals| && visuals[i].part == visuals[j].part;
      assert all[i].part == all[j].part;
    }
  }

  /** No part is counted twice exactly when the parts are distinct. */
  lemma {:induction false} CountsDistinct(visuals: seq<Visual>)
    ensures CountedOnce(visuals) <==> DistinctParts(visuals)
  {
    if visuals != [] {
      var front, last := visuals[..|visuals| - 1], visuals[|visuals| - 1];
      assert visuals == front + [last];
      CountsDistinct(front);
      DistinctNext(front, last);
      forall p ensures CountOf(visuals, p) == CountOf(front, p) + if p == last.part then 1 else 0 {
        CountNext(front, last, p);
      }
      assert CountedOnce(visuals) ==> CountOf(visuals, last.part) <= 1;
    }
  }

  lemma {:induction false} ByKeyFinds(visuals: seq<Visual>, key: string)
    ensures ByKey(visuals, key).Some? <==> key != "" && exists i :: 0 <= i < |visuals| && visuals[i].key == key
    ensures ByKey(visuals, key).Some? ==> ByKey(visuals, key).value in visuals && ByKey(visuals, key).value.key == key
  {
    if visuals != [] {
      var n := |visuals| - 1;
      ByKeyFinds(visuals[..n], key);
      if i :| 0 <= i < |visuals| && visuals[i].key == key {
        if i < n { assert visuals[..n][i].key == key; }
      }
    }
  }

  /** The checker's map keeps the first visual of every key. */
  ghost predicate Indexes(byKey: map<string, Visual>, visuals: seq<Visual>) {
    forall k :: ByKey(visuals, k) == if k in byKey then Some(byKey[k]) else None
  }

  /** The checker's counts of the named parts. */
  ghost predicate Counts(counts: map<string, nat>, visuals: seq<Visual>) {
    "" !in counts && forall p :: p != "" ==> CountOf(visuals, p) == if p in counts then counts[p] else 0
  }

  lemma CountsNext(counts: map<string, nat>, visuals: seq<Visual>, v: Visual)
    requires Counts(counts, visuals)
    ensures Counts(
      if v.part == "" then counts
      else counts[v.part := (if v.part in counts then counts[v.part] else 0) + 1], visuals + [v])
  {
    assert (visuals + [v])[..|visuals|] == visuals;
  }

  lemma IndexesNext(byKey: map<string, Visual>, visuals: seq<Visual>, v: Visual)
    requires Indexes(byKey, visuals)
    ensures Indexes(if v.key == "" || v.key in byKey then byKey else byKey[v.key := v], visuals + [v])
  {
    assert (visuals + [v])[..|visuals|] == visuals;
  }

  lemma IndexedIsStale(byKey: map<string, Visual>, visuals: seq<Visual>, i: nat)
    requires i < |visuals| && Indexes(byKey, visuals[..i]) && visuals[i].key != ""
    ensures visuals[i].key in byKey <==> !FreshKey(visuals, i)
  {
    var key := visuals[i].key;
    ByKeyFinds(visuals[..i], key);
    assert ByKey(visuals[..i], key).Some? <==> key in byKey;
    assert forall j :: 0 <= j < i ==> visuals[..i][j].key == visuals[j].key;
  }

  /** The loop over the visuals, with both maps. */
  method CheckVisuals(visuals: seq<Visual>, e: Expected)
    returns (issues: seq<Issue>, byKey: map<string, Visual>, partCounts: map<string, nat>)
    ensures issues == [] <==> forall i :: 0 <= i < |visuals| ==> GoodVisual(visuals[i], e) && FreshKey(visuals, i)
    ensures Indexes(byKey, visuals) && Counts(partCounts, visuals)
  {
    issues, byKey, partCounts := [], map[], map[];
    for i := 0 to |visuals|
      invariant issues == [] <==> forall j :: 0 <= j < i ==> GoodVisual(visuals[j], e) && FreshKey(visuals, j)
      invariant Indexes(byKey, visuals[..i]) && Counts(partCounts, visuals[..i])
    {
      var v := visuals[i];
      CountsNext(partCounts, visuals[..i], v);
      IndexesNext(byKey, visuals[..i], v);
      assert visuals[..i + 1] == visuals[..i] + [v];
      if v.part != "" {
        partCounts := partCounts[v.part := (if v.part in partCounts then partCounts[v.part] else 0) + 1];
      }
      if v.key == "" {
        issues := issues + [BadKey("")];
      } else {
        IndexedIsStale(byKey, visuals, i);
        if v.key in byKey {
          issues := issues + [DuplicateKey(v.key)];
        } else {
          byKey := byKey[v.key := v];
        }
      }
      var more := CheckVisual(v, e);
      issues := issues + more;
    }
    assert visuals[..|visuals|] == visuals;
  }

  /** The loop over the counted parts. */
  method CheckCounts(partCounts: map<string, nat>) returns (issues: seq<Issue>)
    ensures issues == [] <==> forall p :: p in partCounts ==> partCounts[p] <= 1
  {
    issues := [];
    var left := partCounts.Keys;
    while left != {}
      invariant left <= partCounts.Keys
      invariant issues == [] <==> forall p :: p in partCounts && p !in left ==> partCounts[p] <= 1
      decreases left
    {
      var p :| p in left;
      if partCounts[p] > 1 { issues := issues + [RepeatedPart(p)]; }
      left := left - {p};
    }
  }

  /** Where every part is named, the counts are fine exactly when the parts are distinct. */
  lemma NamedPartsCount(visuals: seq<Visual>, counts: map<string, nat>)
    requires Counts(counts, visuals) && forall i :: 0 <= i < |visuals| ==> visuals[i].part != ""
    ensures (forall p :: p in counts ==> counts[p] <= 1) <==> DistinctParts(visuals)
  {
    CountsDistinct(visuals);
    CountPositive(visuals, "");
    assert CountOf(visuals, "") == 0;
    forall p | p != "" ensures CountOf(visuals, p) == if p in counts then counts[p] else 0 {}
    assert (forall p :: p in counts ==> counts[p] <= 1) <==> CountedOnce(visuals) by {
      if CountedOnce(visuals) {
        forall p | p in counts ensures counts[p] <= 1 { assert CountOf(visuals, p) == counts[p]; }
      }
    }
  }

  lemma LookFrom(m: Manifest, byKey: map<string, Visual>, part: string)
    requires Indexes(byKey, m.visuals)
    ensures var key := if part in m.appearance then m.appearance[part] else "";
      LookAt(m, part) ==
        if key == "" then Absent else if key !in byKey then Dangling(key)
        else if byKey[key].part != part then OtherPart(byKey[key].part) else Shown(byKey[key])
  {
    var key := if part in m.appearance then m.appearance[part] else "";
    assert ByKey(m.visuals, key) == if key in byKey then Some(byKey[key]) else None;
  }

  /** The loop over the drawn parts. */
  method CheckLooks(m: Manifest, order: seq<string>, byKey: map<string, Visual>)
    returns (issues: seq<Issue>, resolved: seq<Visual>)
    requires Indexes(byKey, m.visuals)
    ensures issues == [] <==> forall i :: 0 <= i < |order| ==> GoodLook(m, order[i])
    ensures resolved == Resolved(m, order, |order|)
  {
    issues, resolved := [], [];
    for i := 0 to |order|
      invariant resolved == Resolved(m, order, i)
      invariant issues == [] <==> forall j :: 0 <= j < i ==> GoodLook(m, order[j])
    {
      var part := order[i];
      var key := if part in m.appearance then m.appearance[part] else "";
      ghost var look, before := LookAt(m, part), issues;
      LookFrom(m, byKey, part);
      if key == "" {
        if m.completeness == "complete" { issues := issues + [MissingLook(part)]; }
      } else if key !in byKey {
        issues := issues + [DanglingLook(part, key)];
      } else if byKey[key].part != part {
        issues := issues + [WrongLook(part)];
      } else {
        resolved := resolved + [byKey[key]];
      }
      assert resolved == Resolved(m, order, i) + if look.Shown? then [look.visual] else [];
      assert issues == before <==> GoodLook(m, part);
    }
  }

  /** `resolveVisualPack` */
  method ResolveVisualPack(m: Manifest, e: Expected) returns (issues: seq<Issue>, resolved: seq<Visual>)
    ensures issues == [] <==> Accepted(m, e)
    ensures resolved == Resolved(m, e.drawOrder, |e.drawOrder|)
  {
    var header := CheckHeader(m);
    var atlas := CheckAtlas(m.atlas, e);
    issues := header + atlas;
    if |m.visuals| == 0 { issues := issues + [NoVisuals]; }
    var found, byKey, partCounts := CheckVisuals(m.visuals, e);
    var repeated := CheckCounts(partCounts);
    if found == [] { NamedPartsCount(m.visuals, partCounts); }
    var looks, shown := CheckLooks(m, e.drawOrder, byKey);
    resolved := shown;
    issues := issues + found + repeated + looks;
    if m.completeness == "complete" && |e.required| > 0 && |resolved| != |e.required| {
      issues := issues + [WrongCount(|resolved|)];
    }
  }
}
