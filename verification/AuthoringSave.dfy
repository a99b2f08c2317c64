/**
 `tools/authoring_save.py` itself: a process that may die after any number of file steps, and the
 operations it runs, each proved to perform exactly the script that module Journal gives for it.
 */
module AuthoringSave {
  import opened Basics
  import opened Names
  import J = Journal
  import opened JournalSafety
  import opened JournalTheorems

  /** A process on a disk: it dies when it starts its `left`-th further step, leaving `junk` in a torn write. */
  datatype Process = Process(disk: J.Disk, alive: bool, left: nat, junk: Option<J.Blob>)

  function Exec(p: Process, script: seq<J.Primitive>): Process {
    if !p.alive then p
    else if p.left >= |script| then p.(disk := J.Run(p.disk, script), left := p.left - |script|)
    else p.(disk := J.Crash(p.disk, script, J.Cut(p.left, p.junk)), left := 0, alive := false)
  }

  lemma ExecConcat(p: Process, s: seq<J.Primitive>, t: seq<J.Primitive>)
    ensures Exec(Exec(p, s), t) == Exec(p, s + t)
  {
    if p.alive {
      J.RunConcat(p.disk, s, t);
      J.CrashConcat(p.disk, s, t, J.Cut(p.left, p.junk));
    }
  }

  class Machine {
    var state: Process

    constructor (disk: J.Disk, left: nat, junk: Option<J.Blob>)
      ensures state == Process(disk, true, left, junk)
    {
      state := Process(disk, true, left, junk);
    }

    /** One file step of the process, if it is still running. */
    method Do(p: J.Primitive)
      modifies this
      ensures state == Exec(old(state), [p])
    {
      assert [p][1..] == [];
      assert J.Run(state.disk, [p]) == J.Run(J.Step(state.disk, p), []);
      if state.alive {
        if state.left > 0 {
          state := state.(disk := J.Step(state.disk, p), left := state.left - 1);
        } else {
          state := state.(disk := if state.junk.Some? then J.Torn(state.disk, p, state.junk.value) else state.disk,
                          alive := false);
        }
      }
    }
  }

  /** `_write`. */
  method WriteFile(machine: Machine, path: string, payload: Option<Bytes>)
    modifies machine
    ensures machine.state == Exec(old(machine.state), J.WriteOne(old(machine.state.disk.files), J.Write(path, payload)))
  {
    if payload == None {
      if path in machine.state.disk.files {
        machine.Do(J.Delete(path));
      }
    } else {
      machine.Do(J.PutTemp(path, payload.value));
      ExecConcat(old(machine.state), [J.PutTemp(path, payload.value)], [J.CommitTemp(path)]);
      machine.Do(J.CommitTemp(path));
    }
  }

  /** `_write_json` of a manifest. */
  method WriteJson(machine: Machine, id: string, manifest: J.Manifest)
    modifies machine
    ensures machine.state == Exec(old(machine.state), J.WriteManifest(id, manifest))
  {
    var put, rename := J.PutBlob(id, MANIFEST_TEMP, J.Doc(manifest)), J.RenameBlob(id, MANIFEST_TEMP, MANIFEST);
    machine.Do(put);
    ExecConcat(old(machine.state), [put], [rename]);
    assert [put] + [rename] == J.WriteManifest(id, manifest);
    machine.Do(rename);
  }

  /** `_remove_tree`. */
  method RemoveTree(machine: Machine, id: string)
    modifies machine
    ensures machine.state == Exec(old(machine.state), J.RemoveTree(old(machine.state.disk), id))
  {
    ghost var start := machine.state;
    if id !in machine.state.disk.journals { return; }
    var children := SortDescending(machine.state.disk.journals[id].Keys);
    var i := 0;
    while i < |children|
      invariant i <= |children|
      invariant machine.state == Exec(start, J.DeleteBlobs(id, children[..i]))
    {
      ExecConcat(start, J.DeleteBlobs(id, children[..i]), [J.DeleteBlob(id, children[i])]);
      DeleteBlobsAppend(id, children[..i], children[i]);
      assert children[..i + 1] == children[..i] + [children[i]];
      machine.Do(J.DeleteBlob(id, children[i]));
      i := i + 1;
    }
    assert children[..i] == children;
    ExecConcat(start, J.DeleteBlobs(id, children), [J.RemoveJournal(id)]);
    machine.Do(J.RemoveJournal(id));
  }

  lemma {:induction false} DeleteBlobsAppend(id: string, names: seq<string>, name: string)
    ensures J.DeleteBlobs(id, names + [name]) == J.DeleteBlobs(id, names) + [J.DeleteBlob(id, name)]
  {
    if names != [] {
      assert (names + [name])[1..] == names[1..] + [name];
      DeleteBlobsAppend(id, names[1..], name);
    }
  }

  /** The write loops of `publish` and `recover_authoring`. */
  method WriteFiles(machine: Machine, writes: seq<J.Write>)
    modifies machine
    ensures machine.state == Exec(old(machine.state), J.WriteAll(old(machine.state.disk.files), writes))
  {
    ghost var start := machine.state;
    var i := 0;
    while i < |writes|
      invariant i <= |writes|
      invariant machine.state == Exec(start, J.WriteAll(start.disk.files, writes[..i]))
    {
      var w := writes[i];
      J.RunWriteAll(start.disk, writes[..i]);
      J.WriteAllConcat(start.disk.files, writes[..i], [w]);
      assert writes[..i + 1] == writes[..i] + [w];
      var next := J.PutAll(start.disk.files, writes[..i]);
      assert J.WriteAll(next, [w]) == J.WriteOne(next, w) + [] == J.WriteOne(next, w);
      ExecConcat(start, J.WriteAll(start.disk.files, writes[..i]), J.WriteOne(next, w));
      WriteFile(machine, w.path, w.payload);
      i := i + 1;
    }
    assert writes[..i] == writes;
  }

  class AuthoringOperation {
    const machine: Machine
    const operationId: string
    var staged: seq<J.Staged>
    var isOpen: bool

    constructor (machine: Machine, operationId: string)
      ensures this.machine == machine && this.operationId == operationId
      ensures staged == [] && !isOpen
    {
      this.machine := machine;
      this.operationId := operationId;
      staged, isOpen := [], false;
    }

    method Stage(path: string, newPayload: Option<Bytes>)
      modifies this`staged
      ensures staged == old(staged) + [J.Staged(path, J.Lookup(machine.state.disk.files, path), newPayload)]
    {
      var before := J.Lookup(machine.state.disk.files, path);
      staged := staged + [J.Staged(path, before, newPayload)];
    }

    /** The two image files of one staged file, if they exist. */
    method WriteImagePair(index: nat)
      requires index < |staged|
      modifies machine
      ensures machine.state == Exec(old(machine.state),
        J.OneImage(operationId, BeforeName(index), staged[index].before)
        + J.OneImage(operationId, AfterName(index), staged[index].after))
    {
      var s := staged[index];
      var before, after := BeforeName(index), AfterName(index);
      ghost var start := machine.state;
      ghost var one, two := J.OneImage(operationId, before, s.before), J.OneImage(operationId, after, s.after);
      assert J.Run(start.disk, []) == start.disk;
      if s.before.Some? { machine.Do(J.PutBlob(operationId, before, J.Data(s.before.value))); }
      ghost var mid := machine.state;
      assert mid == Exec(start, one);
      assert J.Run(mid.disk, []) == mid.disk;
      if s.after.Some? { machine.Do(J.PutBlob(operationId, after, J.Data(s.after.value))); }
      assert machine.state == Exec(mid, two);
      ExecConcat(start, one, two);
    }

    /** The image loop of `publish`, which also collects the manifest rows. */
    method WriteImages() returns (files: seq<J.Entry>)
      modifies machine
      ensures machine.state == Exec(old(machine.state), J.Images(operationId, staged, 0))
      ensures files == J.Entries(staged)
    {
      ghost var start := machine.state;
      ghost var images := J.Images(operationId, staged, 0);
      ghost var done: seq<J.Primitive> := [];
      assert done + images == images;
      files := [];
      var index := 0;
      while index < |staged|
        invariant index == |files| <= |staged|
        invariant files == J.Entries(staged)[..index]
        invariant machine.state == Exec(start, done)
        invariant done + J.Images(operationId, staged, index) == images
      {
        ghost var one := J.OneImage(operationId, BeforeName(index), staged[index].before);
        ghost var two := J.OneImage(operationId, AfterName(index), staged[index].after);
        ExecConcat(start, done, one + two);
        WriteImagePair(index);
        var s := staged[index];
        files := files + [J.Entry(s.path, if s.before.Some? then Some(BeforeName(index)) else None,
                                  if s.after.Some? then Some(AfterName(index)) else None)];
        ImagesStep(operationId, staged, index, done, images);
        EntriesStep(staged, index);
        index := index + 1;
        done := done + (one + two);
      }
      assert done + [] == done;
    }

    method Publish()
      requires !isOpen
      modifies this`isOpen, machine
      ensures machine.state == Exec(old(machine.state), J.Publish(old(machine.state.disk), operationId, staged))
      ensures isOpen == (staged != [])
    {
      if staged == [] { return; }
      ghost var start := machine.state;
      ghost var make := [J.MakeRoot, J.MakeJournal(operationId)];
      machine.Do(J.MakeRoot);
      machine.Do(J.MakeJournal(operationId));
      ExecConcat(start, [J.MakeRoot], [J.MakeJournal(operationId)]);
      assert [J.MakeRoot] + [J.MakeJournal(operationId)] == make;
      isOpen := true;
      var files := WriteImages();
      ghost var images := J.Images(operationId, staged, 0);
      ExecConcat(start, make, images);
      var manifest := J.Manifest(J.PUBLISHING, operationId, files);
      WriteJson(machine, operationId, manifest);
      ExecConcat(start, make + images, J.WriteManifest(operationId, manifest));
      PublishTargets(start);
    }

    /** The write loop of `publish`, once the journal of `start` is prepared. */
    method PublishTargets(ghost start: Process)
      requires machine.state == Exec(start, J.Prepare(operationId, staged))
      modifies machine
      ensures machine.state ==
        Exec(start, J.Prepare(operationId, staged) + J.WriteAll(start.disk.files, J.AfterWrites(staged)))
    {
      ghost var prepare := J.Prepare(operationId, staged);
      ghost var writes := J.AfterWrites(staged);
      PrepareKeepsFiles(start.disk, operationId, staged);
      ExecConcat(start, prepare, J.WriteAll(start.disk.files, writes));
      WriteFiles(machine, J.AfterWrites(staged));
    }

    method Finish()
      requires isOpen == (staged != [])
      requires isOpen && machine.state.alive ==>
        && operationId in machine.state.disk.journals && MANIFEST in machine.state.disk.journals[operationId]
        && machine.state.disk.journals[operationId][MANIFEST]
           == J.Doc(J.ManifestOf(operationId, staged, J.PUBLISHING))
      modifies machine
      ensures machine.state == Exec(old(machine.state), J.Finish(old(machine.state.disk), operationId, staged))
    {
      if !isOpen || !machine.state.alive { return; }
      ghost var start := machine.state;
      var manifest := machine.state.disk.journals[operationId][MANIFEST].manifest;
      manifest := manifest.(status := J.COMPLETE);
      WriteJson(machine, operationId, manifest);
      ghost var seal := J.WriteManifest(operationId, manifest);
      ExecConcat(start, seal, J.RemoveTree(J.Run(start.disk, seal), operationId));
      RemoveTree(machine, operationId);
    }

    method Rollback()
      modifies machine
      ensures machine.state == if isOpen then Exec(old(machine.state), J.Recover(old(machine.state.disk)).script)
        else old(machine.state)
    {
      if !isOpen { return; }
      var notes, outcome := RecoverAuthoring(machine);
    }
  }

  lemma EntriesStep(staged: seq<J.Staged>, index: nat)
    requires index < |staged|
    ensures J.Entries(staged)[..index + 1] == J.Entries(staged)[..index] + [J.EntryOf(staged[index], index)]
  {
  }

  lemma ImagesStep(id: string, staged: seq<J.Staged>, index: nat, done: seq<J.Primitive>, images: seq<J.Primitive>)
    requires index < |staged| && done + J.Images(id, staged, index) == images
    ensures var one := J.OneImage(id, BeforeName(index), staged[index].before);
      var two := J.OneImage(id, AfterName(index), staged[index].after);
      (done + (one + two)) + J.Images(id, staged, index + 1) == images
  {
  }

  lemma {:induction false} KeepsFiles(d: J.Disk, script: seq<J.Primitive>)
    requires forall p :: p in script ==> !p.CommitTemp? && !p.Delete?
    ensures J.Run(d, script).files == d.files
    decreases |script|
  {
    if script != [] {
      assert script[0] in script;
      KeepsFiles(J.Step(d, script[0]), script[1..]);
    }
  }

  lemma {:induction false} ImagesShape(id: string, staged: seq<J.Staged>, from: nat)
    ensures forall p :: p in J.Images(id, staged, from) ==> p.PutBlob?
    decreases |staged| - from
  {
    if from < |staged| { ImagesShape(id, staged, from + 1); }
  }

  lemma PrepareKeepsFiles(d: J.Disk, id: string, staged: seq<J.Staged>)
    ensures J.Run(d, J.Prepare(id, staged)).files == d.files
  {
    ImagesShape(id, staged, 0);
    KeepsFiles(d, J.Prepare(id, staged));
  }

  /** The comparison loop of `recover_authoring`. */
  method CompareFiles(files: map<string, Bytes>, id: string, dir: map<string, J.Blob>, entries: seq<J.Entry>)
    returns (verdict: J.Outcome)
    ensures verdict == J.Compare(files, id, dir, entries)
  {
    var i := 0;
    while i < |entries|
      invariant i <= |entries|
      invariant J.Compare(files, id, dir, entries) == J.Compare(files, id, dir, entries[i..])
    {
      var current := J.Lookup(files, entries[i].path);
      var before := J.Named(dir, entries[i].before);
      var after := J.Named(dir, entries[i].after);
      if before == None || after == None { return J.Unreadable(id); }
      if current != after.value && current != before.value { return J.Refused(entries[i].path, id); }
      i := i + 1;
    }
    return J.Done;
  }

  /** One round of the loop of `recover_authoring`. */
  method RecoverDirectory(machine: Machine, id: string) returns (notes: seq<J.Note>, outcome: J.Outcome)
    requires id in machine.state.disk.journals
    modifies machine
    ensures var one := J.RecoverOne(old(machine.state.disk), id);
      machine.state == Exec(old(machine.state), one.script) && notes == one.notes && outcome == one.outcome
  {
    ghost var start := machine.state;
    var dir := machine.state.disk.journals[id];
    if MANIFEST !in dir {
      RemoveTree(machine, id);
      return [J.RemovedIncomplete(id)], J.Done;
    }
    if dir[MANIFEST].Data? { return [], J.Unreadable(id); }
    var manifest := dir[MANIFEST].manifest;
    if manifest.status == J.COMPLETE {
      RemoveTree(machine, id);
      return [], J.Done;
    }
    if manifest.status != J.PUBLISHING {
      RemoveTree(machine, id);
      return [J.Discarded(id)], J.Done;
    }
    var verdict := CompareFiles(machine.state.disk.files, id, dir, manifest.files);
    if verdict != J.Done { return [], verdict; }
    WriteFiles(machine, J.RestoreWrites(dir, manifest.files));
    ghost var restore := J.WriteAll(start.disk.files, J.RestoreWrites(dir, manifest.files));
    ExecConcat(start, restore, J.RemoveTree(J.Run(start.disk, restore), id));
    RemoveTree(machine, id);
    return [J.Restored(id)], J.Done;
  }

  /** The steps and notes of `whole` still to come, at the directories `ids`, are those of a recovery from `disk`. */
  ghost predicate Remaining(whole: J.Recovery, done: seq<J.Primitive>, notes: seq<J.Note>, disk: J.Disk,
      ids: seq<string>) {
    var rest := J.RecoverFrom(disk, ids);
    whole == J.Recovery(done + rest.script, notes + rest.notes, rest.outcome)
  }

  lemma RemainingStep(whole: J.Recovery, done: seq<J.Primitive>, notes: seq<J.Note>, disk: J.Disk, ids: seq<string>)
    requires ids != [] && ids[0] in disk.journals && Remaining(whole, done, notes, disk, ids)
    ensures var one := J.RecoverOne(disk, ids[0]);
      if one.outcome != J.Done then whole == J.Recovery(done + one.script, notes + one.notes, one.outcome)
      else Remaining(whole, done + one.script, notes + one.notes, J.Run(disk, one.script), ids[1..])
  {
    var one := J.RecoverOne(disk, ids[0]);
    if one.outcome == J.Done {
      var rest := J.RecoverFrom(J.Run(disk, one.script), ids[1..]);
      assert done + (one.script + rest.script) == (done + one.script) + rest.script;
      assert notes + (one.notes + rest.notes) == (notes + one.notes) + rest.notes;
    }
  }

  lemma RemainingSkip(whole: J.Recovery, done: seq<J.Primitive>, notes: seq<J.Note>, disk: J.Disk, ids: seq<string>)
    requires ids != [] && ids[0] !in disk.journals && Remaining(whole, done, notes, disk, ids)
    ensures Remaining(whole, done, notes, disk, ids[1..])
  {
    var rest := J.RecoverFrom(disk, ids[1..]);
    assert J.Run(disk, []) == disk;
    assert [] + rest.script == rest.script && [] + rest.notes == rest.notes;
  }

  lemma DeadStays(p: Process, s: seq<J.Primitive>, t: seq<J.Primitive>)
    requires !Exec(p, s).alive
    ensures Exec(p, s + t) == Exec(p, s)
  {
    ExecConcat(p, s, t);
  }

  /** One round brings the process from `p` to `q`: either the recovery is decided, or the rest remains to be done. */
  lemma RoundDone(start: Process, whole: J.Recovery, done: seq<J.Primitive>, notes: seq<J.Note>, p: Process,
      ids: seq<string>, q: Process)
    requires p == Exec(start, done) && p.alive && Remaining(whole, done, notes, p.disk, ids)
    requires ids != [] && ids[0] in p.disk.journals && q == Exec(p, J.RecoverOne(p.disk, ids[0]).script)
    ensures var one := J.RecoverOne(p.disk, ids[0]);
      && q == Exec(start, done + one.script)
      && (!q.alive ==> q == Exec(start, whole.script))
      && (one.outcome != J.Done ==> whole == J.Recovery(done + one.script, notes + one.notes, one.outcome))
      && (one.outcome == J.Done && q.alive ==>
            Remaining(whole, done + one.script, notes + one.notes, q.disk, ids[1..]))
  {
    var one := J.RecoverOne(p.disk, ids[0]);
    ExecConcat(start, done, one.script);
    RemainingStep(whole, done, notes, p.disk, ids);
    if one.outcome == J.Done && !q.alive {
      DeadStays(start, done + one.script, J.RecoverFrom(J.Run(p.disk, one.script), ids[1..]).script);
    }
  }

  /** `recover_authoring`. */
  method RecoverAuthoring(machine: Machine) returns (notes: seq<J.Note>, outcome: J.Outcome)
    modifies machine
    ensures var whole := J.Recover(old(machine.state.disk));
      && machine.state == Exec(old(machine.state), whole.script)
      && (machine.state.alive ==> notes == whole.notes && outcome == whole.outcome)
  {
    notes, outcome := [], J.Done;
    if !machine.state.disk.root || !machine.state.alive { return; }
    ghost var start := machine.state;
    ghost var whole := J.Recover(start.disk);
    var ids := SortAscending(machine.state.disk.journals.Keys);
    var i := 0;
    ghost var done: seq<J.Primitive> := [];
    assert ids[0..] == ids && Remaining(whole, done, notes, start.disk, ids) by {
      assert [] + whole.script == whole.script && [] + whole.notes == whole.notes;
    }
    while i < |ids|
      invariant i <= |ids|
      invariant machine.state == Exec(start, done) && machine.state.alive
      invariant Remaining(whole, done, notes, machine.state.disk, ids[i..])
    {
      ghost var disk := machine.state.disk;
      assert ids[i..][0] == ids[i] && ids[i..][1..] == ids[i + 1..];
      if ids[i] in machine.state.disk.journals {
        ghost var one := J.RecoverOne(disk, ids[i]);
        ghost var before := machine.state;
        var more, verdict := RecoverDirectory(machine, ids[i]);
        RoundDone(start, whole, done, notes, before, ids[i..], machine.state);
        if verdict != J.Done { return notes + more, verdict; }
        if !machine.state.alive { return; }
        done := done + one.script;
        notes := notes + more;
      } else {
        RemainingSkip(whole, done, notes, disk, ids[i..]);
      }
      i := i + 1;
    }
    assert ids[i..] == [] && notes + [] == notes && done + [] == done;
    if machine.state.disk.root && machine.state.disk.journals == map[] {
      ExecConcat(start, done, [J.RemoveRoot]);
      machine.Do(J.RemoveRoot);
    }
  }

  /**
   `publish_files` of the Item Lab (and the same sequence in the Mob Lab handlers): stage, publish,
   validate, finish, with a roll back when the validator refuses. `valid` is the validator's verdict.
   */
  method PublishFiles(machine: Machine, operationId: string, writes: seq<J.Write>, valid: bool) returns (ok: bool)
    requires machine.state.alive && machine.state.disk.journals == map[]
    requires Agreeing(J.StageAll(machine.state.disk.files, writes))
    modifies machine
    ensures ok ==> valid
    // A process that survives has committed everything, or has put everything back.
    ensures machine.state.alive ==>
      && ok == valid
      && machine.state.disk.journals == map[] && machine.state.disk.temps == old(machine.state.disk.temps)
      && machine.state.disk.files ==
         if valid then AfterFiles(old(machine.state.disk.files), J.StageAll(old(machine.state.disk.files), writes))
         else old(machine.state.disk.files)
    // Wherever it died, the next complete recovery does one or the other, whatever recoveries die before it.
    ensures !machine.state.alive ==>
      var d, staged := old(machine.state.disk), J.StageAll(old(machine.state.disk.files), writes);
      var committed := Commits(d, operationId, staged, valid, J.Cut(old(machine.state.left), old(machine.state.junk)));
      forall cuts :: var crashed := Recoveries(machine.state.disk, cuts);
        && J.Recover(crashed).outcome == J.Done
        && J.Run(crashed, J.Recover(crashed).script).files == if committed then AfterFiles(d.files, staged) else d.files
  {
    ghost var start := machine.state;
    ghost var all := J.StageAll(start.disk.files, writes);
    ghost var c := Save(operationId, all, start.disk.files, start.disk.temps);
    var operation := new AuthoringOperation(machine, operationId);
    var i := 0;
    while i < |writes|
      invariant i <= |writes| && !operation.isOpen
      invariant machine.state == start
      invariant operation.staged == all[..i]
    {
      operation.Stage(writes[i].path, writes[i].payload);
      i := i + 1;
    }
    assert operation.staged == all;
    operation.Publish();
    ghost var publish := J.Publish(start.disk, operationId, all);
    if all != [] { PublishThroughout(start.disk, c); }
    ghost var published := J.Run(start.disk, publish);
    if valid {
      ExecConcat(start, publish, J.Finish(published, operationId, all));
      operation.Finish();
      ok := true;
    } else {
      ExecConcat(start, publish, J.Recover(published).script);
      operation.Rollback();
      ok := false;
    }
    SaveOutcome(start, machine.state, c, valid);
  }

  /** The two sides of AllOrNothing for a process that ran the whole script of a save, or died in it. */
  lemma SaveOutcome(start: Process, end: Process, c: Save, valid: bool)
    requires start.alive && start.disk.journals == map[] && WellStaged(c)
    requires start.disk.files == c.files && start.disk.temps == c.temps
    requires end == Exec(start, SaveScript(start.disk, c.id, c.staged, valid))
    ensures end.alive ==>
      && end.disk.files == (if valid then AfterFiles(c.files, c.staged) else c.files)
      && end.disk.journals == map[] && end.disk.temps == c.temps
    ensures !end.alive ==>
      var committed := Commits(start.disk, c.id, c.staged, valid, J.Cut(start.left, start.junk));
      forall cuts :: var crashed := Recoveries(end.disk, cuts);
        && J.Recover(crashed).outcome == J.Done
        && J.Run(crashed, J.Recover(crashed).script).files == if committed then AfterFiles(c.files, c.staged)
          else c.files
  {
    if end.alive {
      UninterruptedSave(start.disk, c.id, c.staged, valid);
    } else {
      forall cuts
        ensures var crashed := Recoveries(end.disk, cuts);
          && J.Recover(crashed).outcome == J.Done
          && J.Run(crashed, J.Recover(crashed).script).files ==
             if Commits(start.disk, c.id, c.staged, valid, J.Cut(start.left, start.junk)) then
               AfterFiles(c.files, c.staged)
             else c.files
      {
        AllOrNothing(start.disk, c.id, c.staged, valid, J.Cut(start.left, start.junk), cuts);
      }
    }
  }
}
