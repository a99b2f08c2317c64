/**
 What the journal guarantees: a save is all or nothing whatever crashes happen, also inside recovery.
 */
module JournalSafety {
  import opened Basics
  import opened Names
  import opened Journal

  /**
   One save in progress: its operation id and staged files, and the repository files and orphan
   temporaries at the moment it was staged.
   */
  datatype Save = Save(id: string, staged: seq<Staged>, files: map<string, Bytes>, temps: seq<(string, Bytes)>)

  /** `stage` read every before-image from disk. */
  ghost predicate ReadBefore(c: Save) {
    forall i :: 0 <= i < |c.staged| ==> Lookup(c.files, c.staged[i].path) == c.staged[i].before
  }

  /** A path staged more than once is staged with the same new content (distinct paths in practice). */
  ghost predicate Agreeing(staged: seq<Staged>) {
    forall i, j :: 0 <= i < |staged| && 0 <= j < |staged| && staged[i].path == staged[j].path ==>
      staged[i].after == staged[j].after
  }

  ghost predicate WellStaged(c: Save) {
    ReadBefore(c) && Agreeing(c.staged)
  }

  ghost predicate IsStaged(c: Save, path: string) {
    exists i :: 0 <= i < |c.staged| && c.staged[i].path == path
  }

  function AfterFiles(files: map<string, Bytes>, staged: seq<Staged>): map<string, Bytes> {
    if staged == [] then files
    else
      var last := staged[|staged| - 1];
      Put(AfterFiles(files, staged[..|staged| - 1]), last.path, last.after)
  }

  /** Every staged file is at one of its two images and every other file is untouched. */
  ghost predicate Mixed(c: Save, files: map<string, Bytes>) {
    && (forall i :: 0 <= i < |c.staged| ==>
          Lookup(files, c.staged[i].path) == c.staged[i].before || Lookup(files, c.staged[i].path) == c.staged[i].after)
    && (forall path :: !IsStaged(c, path) ==> Lookup(files, path) == Lookup(c.files, path))
  }

  /** The two images of the first `n` staged files are in the directory. */
  ghost predicate HasImages(dir: map<string, Blob>, staged: seq<Staged>, n: nat) {
    forall i :: 0 <= i < n && i < |staged| ==>
      && (staged[i].before.Some? ==> BeforeName(i) in dir && dir[BeforeName(i)] == Data(staged[i].before.value))
      && (staged[i].after.Some? ==> AfterName(i) in dir && dir[AfterName(i)] == Data(staged[i].after.value))
  }

  /** The journal directory is gone, or holds no manifest. */
  ghost predicate NoManifest(d: Disk, c: Save) {
    c.id in d.journals ==> MANIFEST !in d.journals[c.id]
  }

  ghost predicate HasManifest(d: Disk, c: Save, status: string) {
    && c.id in d.journals
    && MANIFEST in d.journals[c.id]
    && d.journals[c.id][MANIFEST] == Doc(ManifestOf(c.id, c.staged, status))
  }

  ghost predicate Publishing(d: Disk, c: Save) {
    HasManifest(d, c, PUBLISHING) && HasImages(d.journals[c.id], c.staged, |c.staged|)
  }

  ghost predicate Frame(d: Disk, c: Save) {
    && d.journals.Keys <= {c.id}
    && (d.journals != map[] ==> d.root)
    && c.temps <= d.temps
  }

  /**
   Every state a crash can leave. Before the commit either nothing has been written, or the journal is
   publishing with all its images; after the commit every staged file is at its after-image.
   */
  ghost predicate Consistent(d: Disk, c: Save, committed: bool) {
    && Frame(d, c)
    && if committed then
         d.files == AfterFiles(c.files, c.staged) && (NoManifest(d, c) || HasManifest(d, c, COMPLETE))
       else
         (d.files == c.files && NoManifest(d, c)) || (Mixed(c, d.files) && Publishing(d, c))
  }

  /** The script meets no error, and every state on the way, torn ones included, is consistent. */
  ghost predicate Throughout(d: Disk, script: seq<Primitive>, c: Save, committed: bool)
    decreases |script|
  {
    && Consistent(d, c, committed)
    && (script != [] ==>
          && Enabled(d, script[0])
          && (forall junk :: Consistent(Torn(d, script[0], junk), c, committed))
          && Throughout(Step(d, script[0]), script[1..], c, committed))
  }

  lemma {:induction false} ThroughoutConcat(d: Disk, s: seq<Primitive>, t: seq<Primitive>, c: Save, committed: bool)
    requires Throughout(d, s, c, committed)
    requires Throughout(Run(d, s), t, c, committed)
    ensures Throughout(d, s + t, c, committed)
    decreases |s|
  {
    if s == [] {
      assert s + t == t;
    } else {
      assert (s + t)[0] == s[0] && (s + t)[1..] == s[1..] + t;
      ThroughoutConcat(Step(d, s[0]), s[1..], t, c, committed);
    }
  }

  lemma {:induction false} ThroughoutCrash(d: Disk, s: seq<Primitive>, c: Save, committed: bool, cut: Cut)
    requires Throughout(d, s, c, committed)
    ensures Consistent(Crash(d, s, cut), c, committed)
    decreases |s|
  {
    if s != [] && cut.steps > 0 {
      ThroughoutCrash(Step(d, s[0]), s[1..], c, committed, Cut(cut.steps - 1, cut.junk));
    }
  }

  lemma {:induction false} ThroughoutRun(d: Disk, s: seq<Primitive>, c: Save, committed: bool)
    requires Throughout(d, s, c, committed)
    ensures Consistent(Run(d, s), c, committed)
    decreases |s|
  {
    if s != [] { ThroughoutRun(Step(d, s[0]), s[1..], c, committed); }
  }

  // Writing the images and the manifest.

  ghost predicate Preparing(d: Disk, c: Save, n: nat) {
    && Frame(d, c)
    && d.files == c.files && d.temps == c.temps
    && c.id in d.journals && MANIFEST !in d.journals[c.id]
    && HasImages(d.journals[c.id], c.staged, n)
  }

  lemma OneImageThroughout(d: Disk, c: Save, n: nat, name: string, image: Option<Bytes>)
    requires Preparing(d, c, n) && name != MANIFEST
    requires forall i :: 0 <= i < n ==> name != BeforeName(i) && name != AfterName(i)
    ensures Throughout(d, OneImage(c.id, name, image), c, false)
    ensures var e := Run(d, OneImage(c.id, name, image));
      && Preparing(e, c, n)
      && (image.Some? ==> name in e.journals[c.id] && e.journals[c.id][name] == Data(image.value))
      && (forall other :: other != name && other in d.journals[c.id] ==>
            other in e.journals[c.id] && e.journals[c.id][other] == d.journals[c.id][other])
  {
    if image.Some? {
      var p := PutBlob(c.id, name, Data(image.value));
      assert OneImage(c.id, name, image) == [p];
      assert Run(d, [p]) == Run(Step(d, p), []);
      assert Throughout(Step(d, p), [], c, false);
    }
  }

  lemma {:induction false} ImagesThroughout(d: Disk, c: Save, from: nat)
    requires from <= |c.staged| && Preparing(d, c, from)
    ensures Throughout(d, Images(c.id, c.staged, from), c, false)
    ensures Preparing(Run(d, Images(c.id, c.staged, from)), c, |c.staged|)
    decreases |c.staged| - from
  {
    if from < |c.staged| {
      forall i | 0 <= i <= from
        ensures i < from ==> BeforeName(from) != BeforeName(i) && AfterName(from) != AfterName(i)
        ensures BeforeName(from) != AfterName(i) && AfterName(from) != BeforeName(i)
        ensures BeforeName(from) != MANIFEST && AfterName(from) != MANIFEST
      {
        ImageNamesDistinct(from, i);
        ImageNamesDistinct(i, from);
      }
      var before := OneImage(c.id, BeforeName(from), c.staged[from].before);
      var after := OneImage(c.id, AfterName(from), c.staged[from].after);
      OneImageThroughout(d, c, from, BeforeName(from), c.staged[from].before);
      var d1 := Run(d, before);
      OneImageThroughout(d1, c, from, AfterName(from), c.staged[from].after);
      var d2 := Run(d1, after);
      RunConcat(d, before, after);
      ThroughoutConcat(d, before, after, c, false);
      assert HasImages(d2.journals[c.id], c.staged, from + 1);
      var rest := Images(c.id, c.staged, from + 1);
      ImagesThroughout(d2, c, from + 1);
      RunConcat(d, before + after, rest);
      ThroughoutConcat(d, before + after, rest, c, false);
    }
  }

  lemma UnwrittenIsMixed(c: Save)
    requires ReadBefore(c)
    ensures Mixed(c, c.files)
  {
  }

  /** `publish` up to the manifest: nothing visible happens, and a publishing journal is left. */
  lemma PrepareThroughout(d: Disk, c: Save)
    requires ReadBefore(c) && d.journals == map[] && d.files == c.files && d.temps == c.temps
    ensures Throughout(d, Prepare(c.id, c.staged), c, false)
    ensures var e := Run(d, Prepare(c.id, c.staged));
      Publishing(e, c) && Frame(e, c) && e.files == c.files && e.temps == c.temps && MANIFEST_TEMP !in e.journals[c.id]
  {
    UnwrittenIsMixed(c);
    var make := [MakeRoot, MakeJournal(c.id)];
    var d1 := Step(d, MakeRoot);
    var d2 := Step(d1, MakeJournal(c.id));
    assert Run(d, make) == d2 by {
      assert make[1..] == [MakeJournal(c.id)];
      assert Run(d1, make[1..]) == Run(d2, make[1..][1..]);
    }
    assert Throughout(d2, [], c, false);
    assert Throughout(d1, [MakeJournal(c.id)], c, false) by {
      assert [MakeJournal(c.id)][1..] == [];
    }
    assert Throughout(d, make, c, false) by {
      assert make[1..] == [MakeJournal(c.id)];
    }
    var images := Images(c.id, c.staged, 0);
    ImagesThroughout(d2, c, 0);
    var d3 := Run(d2, images);
    RunConcat(d, make, images);
    ThroughoutConcat(d, make, images, c, false);
    ManifestThroughout(d3, c);
    var seal := WriteManifest(c.id, ManifestOf(c.id, c.staged, PUBLISHING));
    RunConcat(d, make + images, seal);
    ThroughoutConcat(d, make + images, seal, c, false);
    assert Prepare(c.id, c.staged) == make + images + seal;
  }

  lemma ManifestThroughout(d: Disk, c: Save)
    requires ReadBefore(c) && Preparing(d, c, |c.staged|)
    ensures var seal := WriteManifest(c.id, ManifestOf(c.id, c.staged, PUBLISHING));
      var e := Run(d, seal);
      && Throughout(d, seal, c, false)
      && Publishing(e, c) && Frame(e, c) && e.files == c.files && e.temps == c.temps
      && MANIFEST_TEMP !in e.journals[c.id]
  {
    UnwrittenIsMixed(c);
    var manifest := ManifestOf(c.id, c.staged, PUBLISHING);
    var put, rename := PutBlob(c.id, MANIFEST_TEMP, Doc(manifest)), RenameBlob(c.id, MANIFEST_TEMP, MANIFEST);
    var seal := WriteManifest(c.id, manifest);
    forall i: nat ensures BeforeName(i) != MANIFEST && AfterName(i) != MANIFEST
      && BeforeName(i) != MANIFEST_TEMP && AfterName(i) != MANIFEST_TEMP
    {
      ImageNamesDistinct(i, i);
    }
    assert MANIFEST != MANIFEST_TEMP by { assert |MANIFEST| != |MANIFEST_TEMP|; }
    var d1 := Step(d, put);
    var d2 := Step(d1, rename);
    assert seal[1..] == [rename] && [rename][1..] == [];
    assert Run(d, seal) == d2 by { assert Run(d1, [rename]) == Run(d2, []); }
    assert Publishing(d2, c);
    assert Throughout(d2, [], c, false);
    assert Throughout(d1, [rename], c, false);
  }

  // Writing the targets.

  /** `writes` gives each staged path one of its two images. */
  ghost predicate WritesImages(c: Save, writes: seq<Write>) {
    && |writes| == |c.staged|
    && (forall i :: 0 <= i < |writes| ==>
          && writes[i].path == c.staged[i].path
          && (writes[i].payload == c.staged[i].before || writes[i].payload == c.staged[i].after))
    && (forall i, j :: 0 <= i < |writes| && 0 <= j < |writes| && writes[i].path == writes[j].path ==>
          writes[i].payload == writes[j].payload)
  }

  ghost predicate Written(files: map<string, Bytes>, writes: seq<Write>, n: nat) {
    forall i :: 0 <= i < n && i < |writes| ==> Lookup(files, writes[i].path) == writes[i].payload
  }

  ghost predicate Live(d: Disk, c: Save) {
    Frame(d, c) && Publishing(d, c) && Mixed(c, d.files)
  }

  lemma PutMixed(c: Save, files: map<string, Bytes>, w: Write, n: nat)
    requires Mixed(c, files) && n < |c.staged| && w.path == c.staged[n].path
    requires w.payload == c.staged[n].before || w.payload == c.staged[n].after
    requires WellStaged(c)
    ensures Mixed(c, Put(files, w.path, w.payload))
    ensures Lookup(Put(files, w.path, w.payload), w.path) == w.payload
  {
    var next := Put(files, w.path, w.payload);
    forall path | !IsStaged(c, path) ensures Lookup(next, path) == Lookup(c.files, path) {
      assert path != w.path;
      assert Lookup(next, path) == Lookup(files, path);
    }
  }

  lemma LiveKept(d: Disk, e: Disk, c: Save)
    requires Live(d, c)
    requires e.journals == d.journals && e.root == d.root && c.temps <= e.temps && Mixed(c, e.files)
    ensures Live(e, c) && Consistent(e, c, false)
  {
  }

  lemma DeleteThroughout(d: Disk, c: Save, path: string)
    requires Live(d, c) && path in d.files && Mixed(c, d.files - {path})
    ensures Throughout(d, [Delete(path)], c, false)
    ensures Run(d, [Delete(path)]) == d.(files := d.files - {path})
  {
    var e := d.(files := d.files - {path});
    LiveKept(d, e, c);
    LiveKept(d, d, c);
    var script := [Delete(path)];
    assert script[1..] == [] && Step(d, script[0]) == e;
    assert Throughout(e, [], c, false);
    assert Run(d, script) == Run(e, []);
  }

  lemma ReplaceThroughout(d: Disk, c: Save, path: string, bytes: Bytes)
    requires Live(d, c) && Mixed(c, d.files[path := bytes])
    ensures Throughout(d, [PutTemp(path, bytes), CommitTemp(path)], c, false)
    ensures Run(d, [PutTemp(path, bytes), CommitTemp(path)]) == d.(files := d.files[path := bytes])
  {
    var script := [PutTemp(path, bytes), CommitTemp(path)];
    var e, f := d.(temps := d.temps + [(path, bytes)]), d.(files := d.files[path := bytes]);
    LiveKept(d, d, c);
    forall junk ensures Consistent(Torn(d, script[0], junk), c, false) {
      LiveKept(d, Torn(d, script[0], junk), c);
    }
    LiveKept(d, e, c);
    LiveKept(d, f, c);
    assert e.temps[..|e.temps| - 1] == d.temps;
    assert Step(d, script[0]) == e && script[1..] == [CommitTemp(path)];
    assert Step(e, script[1..][0]) == f && script[1..][1..] == [];
    assert Throughout(f, [], c, false);
    assert Throughout(e, script[1..], c, false);
    assert Run(d, script) == Run(e, script[1..]) == Run(f, []);
  }

  lemma WriteOneThroughout(d: Disk, c: Save, w: Write, n: nat)
    requires WellStaged(c) && Live(d, c)
    requires n < |c.staged| && w.path == c.staged[n].path
    requires w.payload == c.staged[n].before || w.payload == c.staged[n].after
    ensures Throughout(d, WriteOne(d.files, w), c, false)
    ensures Run(d, WriteOne(d.files, w)) == d.(files := Put(d.files, w.path, w.payload))
    ensures Live(Run(d, WriteOne(d.files, w)), c)
  {
    PutMixed(c, d.files, w, n);
    LiveKept(d, d.(files := Put(d.files, w.path, w.payload)), c);
    match w.payload {
      case None =>
        if w.path in d.files {
          DeleteThroughout(d, c, w.path);
        } else {
          assert Put(d.files, w.path, w.payload) == d.files;
          LiveKept(d, d, c);
        }
      case Some(bytes) =>
        ReplaceThroughout(d, c, w.path, bytes);
    }
  }

  lemma {:induction false} WritesThroughout(d: Disk, c: Save, writes: seq<Write>, n: nat)
    requires WellStaged(c) && Live(d, c)
    requires WritesImages(c, writes) && n <= |writes| && Written(d.files, writes, n)
    ensures Throughout(d, WriteAll(d.files, writes[n..]), c, false)
    ensures var e := Run(d, WriteAll(d.files, writes[n..]));
      && Live(e, c) && Written(e.files, writes, |writes|)
      && e.journals == d.journals && e.root == d.root && e.temps == d.temps
    decreases |writes| - n
  {
    if n < |writes| {
      var w := writes[n];
      assert writes[n..][0] == w && writes[n..][1..] == writes[n + 1..];
      var first := WriteOne(d.files, w);
      WriteOneThroughout(d, c, w, n);
      var d1 := Run(d, first);
      forall i | 0 <= i < n + 1 ensures Lookup(d1.files, writes[i].path) == writes[i].payload {
        if i < n && writes[i].path == w.path { assert writes[i].payload == w.payload; }
      }
      WritesThroughout(d1, c, writes, n + 1);
      var rest := WriteAll(d1.files, writes[n + 1..]);
      RunConcat(d, first, rest);
      ThroughoutConcat(d, first, rest, c, false);
    }
  }

  lemma SameLookups(a: map<string, Bytes>, b: map<string, Bytes>)
    requires forall path :: Lookup(a, path) == Lookup(b, path)
    ensures a == b
  {
    forall path ensures path in a <==> path in b {
      assert Lookup(a, path) == Lookup(b, path);
    }
    forall path | path in a ensures a[path] == b[path] {
      assert Lookup(a, path) == Lookup(b, path);
    }
  }

  /** Restoring every before-image gives back exactly the files that were staged from. */
  lemma RestoredFiles(c: Save, files: map<string, Bytes>)
    requires WellStaged(c) && Mixed(c, files) && Written(files, BeforeWrites(c.staged), |c.staged|)
    ensures files == c.files
  {
    forall path ensures Lookup(files, path) == Lookup(c.files, path) {
      if IsStaged(c, path) {
        var i :| 0 <= i < |c.staged| && c.staged[i].path == path;
        assert BeforeWrites(c.staged)[i].path == path;
      }
    }
    SameLookups(files, c.files);
  }

  lemma {:induction false} AfterFilesLookup(files: map<string, Bytes>, staged: seq<Staged>, path: string)
    requires Agreeing(staged)
    ensures forall i :: 0 <= i < |staged| && staged[i].path == path ==>
              Lookup(AfterFiles(files, staged), path) == staged[i].after
    ensures (forall i :: 0 <= i < |staged| ==> staged[i].path != path) ==>
              Lookup(AfterFiles(files, staged), path) == Lookup(files, path)
  {
    if staged != [] {
      var n := |staged| - 1;
      AfterFilesLookup(files, staged[..n], path);
      forall i | 0 <= i < |staged| && staged[i].path == path
        ensures Lookup(AfterFiles(files, staged), path) == staged[i].after
      {
        if i < n { assert staged[..n][i] == staged[i]; }
      }
    }
  }

  lemma PublishedFiles(c: Save, files: map<string, Bytes>)
    requires WellStaged(c) && Mixed(c, files) && Written(files, AfterWrites(c.staged), |c.staged|)
    ensures files == AfterFiles(c.files, c.staged)
  {
    forall path ensures Lookup(files, path) == Lookup(AfterFiles(c.files, c.staged), path) {
      AfterFilesLookup(c.files, c.staged, path);
      if IsStaged(c, path) {
        var i :| 0 <= i < |c.staged| && c.staged[i].path == path;
        assert AfterWrites(c.staged)[i].path == path;
      }
    }
    SameLookups(files, AfterFiles(c.files, c.staged));
  }

  // Removing a journal directory.

  /** Consistent with the outcome already decided: whatever the journal says, the files are final. */
  ghost predicate Settled(d: Disk, c: Save, committed: bool) {
    Consistent(d, c, committed) && (!committed ==> d.files == c.files)
  }

  lemma DeleteBlobSettled(d: Disk, c: Save, names: seq<string>, committed: bool)
    requires WellStaged(c) && Settled(d, c, committed) && c.id in d.journals
    requires names != [] && StrictlyDescending(names) && forall n :: n in names <==> n in d.journals[c.id]
    ensures Settled(Step(d, DeleteBlob(c.id, names[0])), c, committed)
  {
    UnwrittenIsMixed(c);
    var dir := d.journals[c.id];
    assert names[0] in dir;
    var e := Step(d, DeleteBlob(c.id, names[0]));
    assert e.journals[c.id] == dir - {names[0]};
    if MANIFEST in dir && names[0] != MANIFEST {
      FirstIsNoImage(names);
      if !committed { assert HasImages(e.journals[c.id], c.staged, |c.staged|); }
    }
  }

  /**
   Deleting in descending name order keeps every state consistent: while the manifest is there, so are
   all the images it names.
   */
  lemma {:induction false} RemoveThroughout(d: Disk, c: Save, names: seq<string>, committed: bool)
    requires WellStaged(c) && Settled(d, c, committed) && c.id in d.journals
    requires StrictlyDescending(names) && forall n :: n in names <==> n in d.journals[c.id]
    ensures var script := DeleteBlobs(c.id, names) + [RemoveJournal(c.id)];
      && Throughout(d, script, c, committed)
      && Run(d, script) == d.(journals := map[])
    decreases |names|
  {
    var script := DeleteBlobs(c.id, names) + [RemoveJournal(c.id)];
    if names == [] {
      assert d.journals[c.id] == map[];
      assert script == [RemoveJournal(c.id)] && script[1..] == [];
      var e := Step(d, script[0]);
      assert e.journals == map[];
      assert Throughout(e, [], c, committed);
      assert Run(d, script) == Run(e, []);
    } else {
      var p := DeleteBlob(c.id, names[0]);
      assert script[0] == p && script[1..] == DeleteBlobs(c.id, names[1..]) + [RemoveJournal(c.id)];
      assert names[0] in d.journals[c.id];
      var e := Step(d, p);
      DeleteBlobSettled(d, c, names, committed);
      ListingShrinks(names, d.journals[c.id]);
      RemoveThroughout(e, c, names[1..], committed);
      assert forall junk :: Torn(d, p, junk) == d;
      assert Run(d, script) == Run(e, script[1..]);
    }
  }

  lemma ListingShrinks(names: seq<string>, dir: map<string, Blob>)
    requires names != [] && StrictlyDescending(names) && forall n :: n in names <==> n in dir
    ensures StrictlyDescending(names[1..]) && forall n :: n in names[1..] <==> n in dir - {names[0]}
  {
    var rest := names[1..];
    forall n ensures n in rest <==> n in dir - {names[0]} {
      if n in rest {
        var k :| 0 <= k < |rest| && rest[k] == n;
        assert names[k + 1] == n && Less(names[k + 1], names[0]);
        LessIrreflexive(n);
        assert n in names;
      }
    }
    forall i, j | 0 <= i < j < |rest| ensures Less(rest[j], rest[i]) {
      assert Less(names[j + 1], names[i + 1]);
    }
  }

  /** As long as the manifest is still listed behind it, the first name is not an image. */
  lemma FirstIsNoImage(names: seq<string>)
    requires names != [] && StrictlyDescending(names) && MANIFEST in names && names[0] != MANIFEST
    ensures forall i: nat :: names[0] != BeforeName(i) && names[0] != AfterName(i)
  {
    var k :| 0 <= k < |names| && names[k] == MANIFEST;
    assert Less(MANIFEST, names[0]);
    if Less(names[0], MANIFEST) {
      LessTransitive(MANIFEST, names[0], MANIFEST);
      LessIrreflexive(MANIFEST);
    }
    forall i: nat ensures names[0] != BeforeName(i) && names[0] != AfterName(i) {
      ManifestListedBeforeImages(BeforeName(i));
      ManifestListedBeforeImages(AfterName(i));
    }
  }

  lemma RemoveTreeThroughout(d: Disk, c: Save, committed: bool)
    requires WellStaged(c) && Settled(d, c, committed)
    ensures Throughout(d, RemoveTree(d, c.id), c, committed)
    ensures Run(d, RemoveTree(d, c.id)) == d.(journals := map[])
  {
    if c.id in d.journals {
      var names := Descending(d.journals[c.id].Keys);
      DescendingSorted(d.journals[c.id].Keys);
      RemoveThroughout(d, c, names, committed);
    } else {
      assert d.journals == map[];
    }
  }

  // Finishing.

  /** `finish`: up to the replace of the manifest the save is undone by recovery, from there on it stands. */
  lemma FinishThroughout(d: Disk, c: Save)
    requires WellStaged(c) && c.staged != [] && Live(d, c) && d.files == AfterFiles(c.files, c.staged)
    ensures var seal := WriteManifest(c.id, ManifestOf(c.id, c.staged, COMPLETE));
      && Finish(d, c.id, c.staged) == seal + RemoveTree(Run(d, seal), c.id)
      && Throughout(d, seal[..1], c, false) && Enabled(Run(d, seal[..1]), seal[1])
      && Throughout(Run(d, seal), RemoveTree(Run(d, seal), c.id), c, true)
      && Run(d, Finish(d, c.id, c.staged)) == d.(journals := map[])
  {
    var manifest := ManifestOf(c.id, c.staged, COMPLETE);
    var put, rename := PutBlob(c.id, MANIFEST_TEMP, Doc(manifest)), RenameBlob(c.id, MANIFEST_TEMP, MANIFEST);
    var seal := WriteManifest(c.id, manifest);
    TempKeepsPublishing(d, c);
    var d1 := Step(d, put);
    var d2 := Step(d1, rename);
    assert seal[..1] == [put] && [put][1..] == [] && seal[1..] == [rename] && [rename][1..] == [];
    assert Throughout(d1, [], c, false);
    assert Run(d, seal[..1]) == Run(d1, []) == d1;
    assert Run(d, seal) == Run(d1, [rename]) == Run(d2, []) == d2;
    assert HasManifest(d2, c, COMPLETE);
    RemoveTreeThroughout(d2, c, true);
    RunConcat(d, seal, RemoveTree(d2, c.id));
    assert d2.(journals := map[]) == d.(journals := map[]);
  }

  lemma TempKeepsPublishing(d: Disk, c: Save)
    requires Live(d, c)
    ensures forall blob :: Live(Step(d, PutBlob(c.id, MANIFEST_TEMP, blob)), c)
  {
    forall i: nat ensures BeforeName(i) != MANIFEST_TEMP && AfterName(i) != MANIFEST_TEMP {
      ImageNamesDistinct(i, i);
    }
    assert MANIFEST != MANIFEST_TEMP by { assert |MANIFEST| != |MANIFEST_TEMP|; }
    forall blob ensures Live(Step(d, PutBlob(c.id, MANIFEST_TEMP, blob)), c) {
      var e := Step(d, PutBlob(c.id, MANIFEST_TEMP, blob));
      assert e.journals[c.id] == d.journals[c.id][MANIFEST_TEMP := blob];
      assert HasImages(e.journals[c.id], c.staged, |c.staged|);
    }
  }

  // Recovering.

  lemma NamedImages(d: Disk, c: Save, i: nat)
    requires Publishing(d, c) && i < |c.staged|
    ensures Named(d.journals[c.id], EntryOf(c.staged[i], i).before) == Some(c.staged[i].before)
    ensures Named(d.journals[c.id], EntryOf(c.staged[i], i).after) == Some(c.staged[i].after)
  {
  }

  /** The comparison loop accepts exactly when every current file is one of its two images. */
  lemma {:induction false} CompareImages(d: Disk, c: Save, n: nat)
    requires Publishing(d, c) && n <= |c.staged|
    ensures Compare(d.files, c.id, d.journals[c.id], Entries(c.staged)[n..]) == Done <==>
      forall i :: n <= i < |c.staged| ==>
        Lookup(d.files, c.staged[i].path) == c.staged[i].before
          || Lookup(d.files, c.staged[i].path) == c.staged[i].after
    ensures Compare(d.files, c.id, d.journals[c.id], Entries(c.staged)[n..]) != Done ==>
      Compare(d.files, c.id, d.journals[c.id], Entries(c.staged)[n..]).Refused?
    decreases |c.staged| - n
  {
    if n < |c.staged| {
      var entries := Entries(c.staged);
      assert entries[n..][0] == EntryOf(c.staged[n], n) && entries[n..][1..] == entries[n + 1..];
      NamedImages(d, c, n);
      CompareImages(d, c, n + 1);
    }
  }

  lemma RestoreWritesImages(d: Disk, c: Save)
    requires Publishing(d, c)
    ensures RestoreWrites(d.journals[c.id], Entries(c.staged)) == BeforeWrites(c.staged)
  {
    forall i | 0 <= i < |c.staged|
      ensures RestoreWrites(d.journals[c.id], Entries(c.staged))[i] == BeforeWrites(c.staged)[i]
    {
      NamedImages(d, c, i);
    }
  }

  lemma RestoreThroughout(d: Disk, c: Save)
    requires WellStaged(c) && Live(d, c)
    ensures var one := RecoverOne(d, c.id);
      && one.outcome == Done && Throughout(d, one.script, c, false)
      && Run(d, one.script) == d.(files := c.files, journals := map[])
  {
    var dir := d.journals[c.id];
    var entries := Entries(c.staged);
    assert entries[0..] == entries;
    CompareImages(d, c, 0);
    RestoreWritesImages(d, c);
    var writes := BeforeWrites(c.staged);
    assert writes[0..] == writes;
    WritesThroughout(d, c, writes, 0);
    var restore := WriteAll(d.files, writes);
    var e := Run(d, restore);
    RestoredFiles(c, e.files);
    RemoveTreeThroughout(e, c, false);
    var remove := RemoveTree(e, c.id);
    ThroughoutConcat(d, restore, remove, c, false);
    RunConcat(d, restore, remove);
    assert e.(journals := map[]) == d.(files := c.files, journals := map[]);
  }

  function FinalFiles(c: Save, committed: bool): map<string, Bytes> {
    if committed then AfterFiles(c.files, c.staged) else c.files
  }

  lemma RecoverOneThroughout(d: Disk, c: Save, committed: bool)
    requires WellStaged(c) && Consistent(d, c, committed) && c.id in d.journals
    ensures var one := RecoverOne(d, c.id);
      && one.outcome == Done && Throughout(d, one.script, c, committed)
      && Run(d, one.script) == d.(files := FinalFiles(c, committed), journals := map[])
  {
    if !committed && !NoManifest(d, c) {
      RestoreThroughout(d, c);
    } else {
      RemoveTreeThroughout(d, c, committed);
    }
  }

  /** `recover_authoring` on any state a crash can leave: it succeeds, and every cut of it is consistent again. */
  lemma RecoverThroughout(d: Disk, c: Save, committed: bool)
    requires WellStaged(c) && Consistent(d, c, committed)
    ensures var r := Recover(d);
      && r.outcome == Done && Throughout(d, r.script, c, committed)
      && Run(d, r.script) == Disk(FinalFiles(c, committed), d.temps, false, map[])
  {
    if d.root {
      var ids := Ascending(d.journals.Keys);
      if c.id in d.journals {
        assert d.journals.Keys == {c.id};
        SingletonListing(c.id);
        var one := RecoverOne(d, c.id);
        RecoverOneThroughout(d, c, committed);
        var d1 := Run(d, one.script);
        ThroughoutRun(d, one.script, c, committed);
        assert ids == [c.id] && ids[1..] == [];
        RemoveRootThroughout(d1, c, committed);
        ThroughoutConcat(d, one.script, [RemoveRoot], c, committed);
        RunConcat(d, one.script, [RemoveRoot]);
        assert RecoverFrom(d1, []) == Recovery([RemoveRoot], [], Done);
        assert RecoverFrom(d, [c.id]).script == one.script + [RemoveRoot];
      } else {
        assert d.journals == map[];
        assert ids == [];
        RemoveRootThroughout(d, c, committed);
      }
    } else {
      assert d.journals == map[];
    }
  }

  lemma SingletonListing(id: string)
    ensures Ascending({id}) == [id]
  {
    assert Greatest({id}) == id;
    assert {id} - {id} == {};
  }

  lemma RemoveRootThroughout(d: Disk, c: Save, committed: bool)
    requires Consistent(d, c, committed) && d.root && d.journals == map[]
    ensures Throughout(d, [RemoveRoot], c, committed) && Run(d, [RemoveRoot]) == d.(root := false)
  {
    var script := [RemoveRoot];
    var e := d.(root := false);
    assert script[1..] == [] && Step(d, script[0]) == e;
    assert Throughout(e, [], c, committed);
    assert Run(d, script) == Run(e, []);
  }
}
