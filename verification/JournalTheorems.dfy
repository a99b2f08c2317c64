/** The promises of the authoring journal, for every save, every crash and every chain of crashed recoveries. */
module JournalTheorems {
  import opened Basics
  import opened Names
  import opened Journal
  import opened JournalSafety

  /**
   Everything one save does: publish, then finish when the validator accepts the tree, and roll back
   (that is, recover) when it does not.
   */
  ghost function SaveScript(d: Disk, id: string, staged: seq<Staged>, valid: bool): seq<Primitive> {
    var publish := Publish(d, id, staged);
    var published := Run(d, publish);
    publish + (if staged == [] then [] else if valid then Finish(published, id, staged) else Recover(published).script)
  }

  /** The commit point: the replace that makes the manifest say `complete`. */
  ghost predicate Commits(d: Disk, id: string, staged: seq<Staged>, valid: bool, cut: Cut) {
    valid && staged != [] && cut.steps >= |Publish(d, id, staged)| + 2
  }

  /** Recoveries that die one after the other, each where its cut says. */
  ghost function Recoveries(d: Disk, cuts: seq<Cut>): Disk
    decreases |cuts|
  {
    if cuts == [] then d else Recoveries(Crash(d, Recover(d).script, cuts[0]), cuts[1..])
  }

  /** No step of the script raises. */
  ghost predicate Succeeds(d: Disk, script: seq<Primitive>)
    decreases |script|
  {
    script != [] ==> Enabled(d, script[0]) && Succeeds(Step(d, script[0]), script[1..])
  }

  lemma {:induction false} ThroughoutSucceeds(d: Disk, script: seq<Primitive>, c: Save, committed: bool)
    requires Throughout(d, script, c, committed)
    ensures Succeeds(d, script)
    decreases |script|
  {
    if script != [] { ThroughoutSucceeds(Step(d, script[0]), script[1..], c, committed); }
  }

  lemma {:induction false} SucceedsConcat(d: Disk, s: seq<Primitive>, t: seq<Primitive>)
    requires Succeeds(d, s) && Succeeds(Run(d, s), t)
    ensures Succeeds(d, s + t)
    decreases |s|
  {
    if s == [] {
      assert s + t == t;
    } else {
      assert (s + t)[0] == s[0] && (s + t)[1..] == s[1..] + t;
      SucceedsConcat(Step(d, s[0]), s[1..], t);
    }
  }

  lemma PublishThroughout(d: Disk, c: Save)
    requires WellStaged(c) && c.staged != []
    requires d.journals == map[] && d.files == c.files && d.temps == c.temps
    ensures Throughout(d, Publish(d, c.id, c.staged), c, false)
    ensures var e := Run(d, Publish(d, c.id, c.staged));
      Live(e, c) && e.files == AfterFiles(c.files, c.staged) && e.temps == d.temps && e.root
  {
    var prepare := Prepare(c.id, c.staged);
    PrepareThroughout(d, c);
    UnwrittenIsMixed(c);
    var d1 := Run(d, prepare);
    var writes := AfterWrites(c.staged);
    assert writes[0..] == writes;
    WritesThroughout(d1, c, writes, 0);
    RunConcat(d, prepare, WriteAll(d.files, writes));
    ThroughoutConcat(d, prepare, WriteAll(d.files, writes), c, false);
    PublishedFiles(c, Run(d1, WriteAll(d1.files, writes)).files);
  }

  /** A crash anywhere in a save leaves a consistent state, on the side of the commit point the crash was. */
  lemma SaveCrashConsistent(d: Disk, c: Save, valid: bool, cut: Cut)
    requires d.journals == map[] && WellStaged(c) && d.files == c.files && d.temps == c.temps
    ensures Consistent(Crash(d, SaveScript(d, c.id, c.staged, valid), cut), c, Commits(d, c.id, c.staged, valid, cut))
    ensures Succeeds(d, SaveScript(d, c.id, c.staged, valid))
  {
    var script := SaveScript(d, c.id, c.staged, valid);
    if c.staged == [] {
      UnwrittenIsMixed(c);
      assert script == [];
    } else {
      var publish := Publish(d, c.id, c.staged);
      PublishThroughout(d, c);
      var e := Run(d, publish);
      var rest := script[|publish|..];
      assert script == publish + rest;
      CrashConcat(d, publish, rest, cut);
      ThroughoutSucceeds(d, publish, c, false);
      if cut.steps < |publish| {
        ThroughoutCrash(d, publish, c, false, cut);
      }
      if valid {
        FinishCrashConsistent(e, c, Cut(if cut.steps < |publish| then 0 else cut.steps - |publish|, cut.junk));
      } else {
        RecoverThroughout(e, c, false);
        ThroughoutSucceeds(e, rest, c, false);
        if cut.steps >= |publish| {
          ThroughoutCrash(e, rest, c, false, Cut(cut.steps - |publish|, cut.junk));
        }
      }
      SucceedsConcat(d, publish, rest);
    }
  }

  lemma FinishCrashConsistent(d: Disk, c: Save, cut: Cut)
    requires WellStaged(c) && c.staged != [] && Live(d, c) && d.files == AfterFiles(c.files, c.staged)
    ensures Consistent(Crash(d, Finish(d, c.id, c.staged), cut), c, cut.steps >= 2)
    ensures Succeeds(d, Finish(d, c.id, c.staged))
  {
    FinishThroughout(d, c);
    var seal := WriteManifest(c.id, ManifestOf(c.id, c.staged, COMPLETE));
    var remove := RemoveTree(Run(d, seal), c.id);
    CrashConcat(d, seal, remove, cut);
    var put, rename := seal[..1], seal[1..];
    assert seal == put + rename && rename == [seal[1]] && rename[1..] == [];
    CrashConcat(d, put, rename, cut);
    if cut.steps == 0 {
      ThroughoutCrash(d, put, c, false, cut);
    } else if cut.steps == 1 {
      ThroughoutRun(d, put, c, false);
    } else {
      ThroughoutCrash(Run(d, seal), remove, c, true, Cut(cut.steps - 2, cut.junk));
    }
    ThroughoutSucceeds(d, put, c, false);
    SucceedsConcat(d, put, rename);
    ThroughoutSucceeds(Run(d, seal), remove, c, true);
    SucceedsConcat(d, seal, remove);
  }

  lemma {:induction false} RecoveriesConsistent(d: Disk, c: Save, committed: bool, cuts: seq<Cut>)
    requires WellStaged(c) && Consistent(d, c, committed)
    ensures Consistent(Recoveries(d, cuts), c, committed)
    decreases |cuts|
  {
    if cuts != [] {
      RecoverThroughout(d, c, committed);
      ThroughoutCrash(d, Recover(d).script, c, committed, cuts[0]);
      RecoveriesConsistent(Crash(d, Recover(d).script, cuts[0]), c, committed, cuts[1..]);
    }
  }

  /**
   All or nothing. A save dies at any point (inside a write, too), then any number of recoveries die at
   any points; the first recovery that runs to its end succeeds without an error and leaves every staged
   file at its after-image if the complete manifest was in place, and every file as it was before
   otherwise. No other file changes, older orphan temporaries stay, and no journal remains.
   */
  lemma AllOrNothing(d: Disk, id: string, staged: seq<Staged>, valid: bool, cut: Cut, cuts: seq<Cut>)
    requires d.journals == map[] && WellStaged(Save(id, staged, d.files, d.temps))
    ensures
      var crashed := Recoveries(Crash(d, SaveScript(d, id, staged, valid), cut), cuts);
      var r := Recover(crashed);
      var final := Run(crashed, r.script);
      && r.outcome == Done && Succeeds(crashed, r.script)
      && final.files == (if Commits(d, id, staged, valid, cut) then AfterFiles(d.files, staged) else d.files)
      && final.journals == map[] && !final.root && d.temps <= final.temps
  {
    var c := Save(id, staged, d.files, d.temps);
    var committed := Commits(d, id, staged, valid, cut);
    SaveCrashConsistent(d, c, valid, cut);
    var first := Crash(d, SaveScript(d, id, staged, valid), cut);
    RecoveriesConsistent(first, c, committed, cuts);
    var crashed := Recoveries(first, cuts);
    RecoverThroughout(crashed, c, committed);
    ThroughoutSucceeds(crashed, Recover(crashed).script, c, committed);
  }

  /** A save that nothing interrupts raises no error and ends with no journal, committed exactly when valid. */
  lemma UninterruptedSave(d: Disk, id: string, staged: seq<Staged>, valid: bool)
    requires d.journals == map[] && WellStaged(Save(id, staged, d.files, d.temps))
    ensures Succeeds(d, SaveScript(d, id, staged, valid))
    ensures var e := Run(d, SaveScript(d, id, staged, valid));
      && e.files == (if valid then AfterFiles(d.files, staged) else d.files)
      && e.temps == d.temps && e.journals == map[]
  {
    var c := Save(id, staged, d.files, d.temps);
    SaveCrashConsistent(d, c, valid, Cut(0, None));
    if staged != [] {
      var publish := Publish(d, id, staged);
      PublishThroughout(d, c);
      var e := Run(d, publish);
      RunConcat(d, publish, if valid then Finish(e, id, staged) else Recover(e).script);
      if valid { FinishThroughout(e, c); } else { RecoverThroughout(e, c, false); }
    }
  }

  /** A journal found in the `publishing` state carries every image its manifest names, so recovery can go on. */
  lemma PublishingKeepsItsImages(d: Disk, id: string, staged: seq<Staged>, valid: bool, cut: Cut, cuts: seq<Cut>,
      i: nat)
    requires d.journals == map[] && WellStaged(Save(id, staged, d.files, d.temps)) && i < |staged|
    ensures
      var crashed := Recoveries(Crash(d, SaveScript(d, id, staged, valid), cut), cuts);
      forall journal, manifest ::
        && journal in crashed.journals && MANIFEST in crashed.journals[journal]
        && crashed.journals[journal][MANIFEST] == Doc(manifest) && manifest.status == PUBLISHING
        ==>
        && journal == id && |manifest.files| == |staged| && manifest.files[i].path == staged[i].path
        && Named(crashed.journals[id], manifest.files[i].before) == Some(Lookup(d.files, staged[i].path))
        && Named(crashed.journals[id], manifest.files[i].after) == Some(staged[i].after)
  {
    var c := Save(id, staged, d.files, d.temps);
    var committed := Commits(d, id, staged, valid, cut);
    SaveCrashConsistent(d, c, valid, cut);
    var first := Crash(d, SaveScript(d, id, staged, valid), cut);
    RecoveriesConsistent(first, c, committed, cuts);
    var crashed := Recoveries(first, cuts);
    forall journal, manifest |
      && journal in crashed.journals && MANIFEST in crashed.journals[journal]
      && crashed.journals[journal][MANIFEST] == Doc(manifest) && manifest.status == PUBLISHING
      ensures journal == id && |manifest.files| == |staged| && manifest.files[i].path == staged[i].path
      ensures Named(crashed.journals[id], manifest.files[i].before) == Some(Lookup(d.files, staged[i].path))
      ensures Named(crashed.journals[id], manifest.files[i].after) == Some(staged[i].after)
    {
      assert journal == id;
      assert HasManifest(crashed, c, manifest.status);
      assert PUBLISHING != COMPLETE by { assert |PUBLISHING| != |COMPLETE|; }
      assert Publishing(crashed, c);
      NamedImages(crashed, c, i);
      assert manifest.files[i] == EntryOf(staged[i], i);
    }
  }

  // Foreign bytes, on any disk whatever.

  /** A publishing journal on the disk lists the path, and its current bytes are one of the two images. */
  ghost predicate Vouched(d: Disk, path: string) {
    exists id, i: nat :: VouchedBy(d, id, i, path)
  }

  ghost predicate VouchedBy(d: Disk, id: string, i: nat, path: string) {
    && id in d.journals && MANIFEST in d.journals[id] && d.journals[id][MANIFEST].Doc?
    && var dir := d.journals[id];
       var manifest := dir[MANIFEST].manifest;
       && manifest.status == PUBLISHING && i < |manifest.files| && manifest.files[i].path == path
       && (Named(dir, manifest.files[i].before) == Some(Lookup(d.files, path))
           || Named(dir, manifest.files[i].after) == Some(Lookup(d.files, path)))
  }

  ghost predicate Touches(p: Primitive, path: string) {
    p == CommitTemp(path) || p == Delete(path)
  }

  ghost predicate Foreign(p: Primitive, id: string) {
    match p
    case PutBlob(j, _, _) => j != id
    case RenameBlob(j, _, _) => j != id
    case DeleteBlob(j, _) => j != id
    case RemoveJournal(j) => j != id
    case MakeJournal(j) => j != id
    case _ => true
  }

  lemma {:induction false} UntouchedPath(d: Disk, script: seq<Primitive>, cut: Cut, path: string)
    requires forall p :: p in script ==> !Touches(p, path)
    ensures Lookup(Crash(d, script, cut).files, path) == Lookup(d.files, path)
    decreases |script|
  {
    if script != [] && cut.steps > 0 {
      assert script[0] in script;
      assert Lookup(Step(d, script[0]).files, path) == Lookup(d.files, path);
      UntouchedPath(Step(d, script[0]), script[1..], Cut(cut.steps - 1, cut.junk), path);
    }
  }

  lemma {:induction false} ForeignScript(d: Disk, script: seq<Primitive>, id: string)
    requires (forall p :: p in script ==> Foreign(p, id)) && id in d.journals
    ensures var e := Run(d, script); id in e.journals && e.journals[id] == d.journals[id]
    decreases |script|
  {
    if script != [] {
      assert script[0] in script;
      ForeignScript(Step(d, script[0]), script[1..], id);
    }
  }

  lemma {:induction false} DeleteBlobsShape(id: string, names: seq<string>)
    ensures forall p :: p in DeleteBlobs(id, names) ==> p.DeleteBlob? && p.id == id
  {
    if names != [] { DeleteBlobsShape(id, names[1..]); }
  }

  lemma RemoveTreeShape(d: Disk, id: string)
    ensures forall p :: p in RemoveTree(d, id) ==> (p.DeleteBlob? || p.RemoveJournal?) && p.id == id
  {
    if id in d.journals { DeleteBlobsShape(id, Descending(d.journals[id].Keys)); }
  }

  lemma {:induction false} WriteAllShape(files: map<string, Bytes>, writes: seq<Write>)
    ensures forall p :: p in WriteAll(files, writes) ==>
      (p.PutTemp? || p.CommitTemp? || p.Delete?) && exists i :: 0 <= i < |writes| && writes[i].path == p.path
    decreases |writes|
  {
    if writes != [] {
      var rest := writes[1..];
      var next := Put(files, writes[0].path, writes[0].payload);
      WriteAllShape(next, rest);
      forall p | p in WriteAll(files, writes)
        ensures (p.PutTemp? || p.CommitTemp? || p.Delete?) && exists i :: 0 <= i < |writes| && writes[i].path == p.path
      {
        if p in WriteAll(next, rest) {
          var i :| 0 <= i < |rest| && rest[i].path == p.path;
          assert writes[i + 1].path == p.path;
        } else {
          assert writes[0].path == p.path;
        }
      }
    }
  }

  lemma {:induction false} ComparedEntries(files: map<string, Bytes>, id: string, dir: map<string, Blob>,
      entries: seq<Entry>, i: nat)
    requires Compare(files, id, dir, entries) == Done && i < |entries|
    ensures Named(dir, entries[i].before) == Some(Lookup(files, entries[i].path))
      || Named(dir, entries[i].after) == Some(Lookup(files, entries[i].path))
  {
    if i > 0 { ComparedEntries(files, id, dir, entries[1..], i - 1); }
  }

  /** Handling one journal touches only vouched paths and only its own directory; a refusal does nothing. */
  lemma RecoverOneShape(d: Disk, id: string)
    requires id in d.journals
    ensures var one := RecoverOne(d, id);
      && (one.outcome != Done ==> one.script == [])
      && (forall p, path :: p in one.script && Touches(p, path) ==> exists i: nat :: VouchedBy(d, id, i, path))
      && (forall p, other :: p in one.script && other != id ==> Foreign(p, other))
  {
    var one := RecoverOne(d, id);
    var dir := d.journals[id];
    RemoveTreeShape(d, id);
    if MANIFEST in dir && dir[MANIFEST].Doc? && dir[MANIFEST].manifest.status == PUBLISHING
      && Compare(d.files, id, dir, dir[MANIFEST].manifest.files) == Done
    {
      RestoreShape(d, id);
    }
  }

  /** The case of a publishing journal whose files are all at one of their images. */
  lemma RestoreShape(d: Disk, id: string)
    requires id in d.journals
    requires var dir := d.journals[id];
      MANIFEST in dir && dir[MANIFEST].Doc? && dir[MANIFEST].manifest.status == PUBLISHING
      && Compare(d.files, id, dir, dir[MANIFEST].manifest.files) == Done
    ensures var one := RecoverOne(d, id);
      && one.outcome == Done
      && (forall p, path :: p in one.script && Touches(p, path) ==> exists i: nat :: VouchedBy(d, id, i, path))
      && (forall p, other :: p in one.script && other != id ==> Foreign(p, other))
  {
    assert PUBLISHING != COMPLETE by { assert |PUBLISHING| != |COMPLETE|; }
    var one, dir := RecoverOne(d, id), d.journals[id];
    var entries := dir[MANIFEST].manifest.files;
    var writes := RestoreWrites(dir, entries);
    var restore := WriteAll(d.files, writes);
    WriteAllShape(d.files, writes);
    RemoveTreeShape(Run(d, restore), id);
    forall p, path | p in one.script && Touches(p, path) ensures exists i: nat :: VouchedBy(d, id, i, path) {
      assert p in restore;
      var i :| 0 <= i < |writes| && writes[i].path == path;
      ComparedEntries(d.files, id, dir, entries, i);
      assert VouchedBy(d, id, i, path);
    }
  }

  /** What the rest of a recovery may rely on: only vouched paths have changed, pending journals have not. */
  ghost predicate SoFar(d: Disk, now: Disk, ids: seq<string>) {
    && (forall path :: Lookup(now.files, path) != Lookup(d.files, path) ==> Vouched(d, path))
    && (forall id :: id in ids && id in now.journals ==> id in d.journals && now.journals[id] == d.journals[id])
  }

  lemma {:induction false} ForeignScriptAbsent(d: Disk, script: seq<Primitive>, id: string)
    requires (forall p :: p in script ==> Foreign(p, id)) && id !in d.journals
    ensures id !in Run(d, script).journals
    decreases |script|
  {
    if script != [] {
      assert script[0] in script;
      ForeignScriptAbsent(Step(d, script[0]), script[1..], id);
    }
  }

  lemma OneStepSoFar(d: Disk, now: Disk, ids: seq<string>, cut: Cut)
    requires ids != [] && StrictlyAscending(ids) && SoFar(d, now, ids) && ids[0] in now.journals
    ensures var one := RecoverOne(now, ids[0]);
      && SoFar(d, Run(now, one.script), ids[1..])
      && (forall path :: Lookup(Crash(now, one.script, cut).files, path) != Lookup(d.files, path) ==> Vouched(d, path))
  {
    var id := ids[0];
    assert id in ids;
    var one := RecoverOne(now, id);
    RecoverOneShape(now, id);
    CrashBeyond(now, one.script, Cut(|one.script|, None));
    forall path, c | Lookup(Crash(now, one.script, c).files, path) != Lookup(d.files, path) ensures Vouched(d, path) {
      if Lookup(now.files, path) == Lookup(d.files, path) {
        if forall p :: p in one.script ==> !Touches(p, path) { UntouchedPath(now, one.script, c, path); }
        var p :| p in one.script && Touches(p, path);
        var i: nat :| VouchedBy(now, id, i, path);
        assert VouchedBy(d, id, i, path);
      }
    }
    forall other | other in ids[1..] && other in Run(now, one.script).journals
      ensures other in d.journals && Run(now, one.script).journals[other] == d.journals[other]
    {
      var k :| 0 <= k < |ids[1..]| && ids[1..][k] == other;
      assert Less(ids[0], ids[k + 1]);
      LessIrreflexive(id);
      assert other in ids;
      if other !in now.journals { ForeignScriptAbsent(now, one.script, other); }
      ForeignScript(now, one.script, other);
    }
  }

  lemma {:induction false} RecoverFromKeepsForeign(d: Disk, now: Disk, ids: seq<string>, cut: Cut, path: string)
    requires StrictlyAscending(ids) && SoFar(d, now, ids)
    requires Lookup(Crash(now, RecoverFrom(now, ids).script, cut).files, path) != Lookup(d.files, path)
    ensures Vouched(d, path)
    decreases |ids|
  {
    if ids == [] {
      UntouchedPath(now, RecoverFrom(now, ids).script, cut, path);
    } else {
      assert StrictlyAscending(ids[1..]) by {
        forall i, j | 0 <= i < j < |ids[1..]| ensures Less(ids[1..][i], ids[1..][j]) {
          assert Less(ids[i + 1], ids[j + 1]);
        }
      }
      if ids[0] in now.journals {
        var one := RecoverOne(now, ids[0]);
        OneStepSoFar(d, now, ids, cut);
        if one.outcome == Done {
          var rest := RecoverFrom(Run(now, one.script), ids[1..]);
          CrashConcat(now, one.script, rest.script, cut);
          if cut.steps >= |one.script| {
            RecoverFromKeepsForeign(d, Run(now, one.script), ids[1..], Cut(cut.steps - |one.script|, cut.junk), path);
          }
        }
      } else {
        assert Run(now, []) == now;
        var rest := RecoverFrom(now, ids[1..]);
        assert [] + rest.script == rest.script;
        RecoverFromKeepsForeign(d, now, ids[1..], cut, path);
      }
    }
  }

  /**
   On any disk, with any journals and any outside edits, a recovery that runs to any point changes a
   file only if a publishing journal lists it and its bytes were one of that journal's two images.
   */
  lemma ForeignBytesSurvive(d: Disk, cut: Cut, path: string)
    ensures Lookup(Crash(d, Recover(d).script, cut).files, path) != Lookup(d.files, path) ==> Vouched(d, path)
  {
    if d.root && Lookup(Crash(d, Recover(d).script, cut).files, path) != Lookup(d.files, path) {
      AscendingSorted(d.journals.Keys);
      RecoverFromKeepsForeign(d, d, Ascending(d.journals.Keys), cut, path);
    }
  }
}
