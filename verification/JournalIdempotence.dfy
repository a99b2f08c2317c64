/** A recovery that ends leaves nothing to recover: on any disk whatever, doing it again does nothing. */
module JournalIdempotence {
  import opened Names
  import opened Journal
  import opened JournalSafety

  lemma {:induction false} RemovingEmpties(d: Disk, id: string, names: seq<string>)
    requires id in d.journals && StrictlyDescending(names) && forall n :: n in names <==> n in d.journals[id]
    ensures Run(d, DeleteBlobs(id, names) + [RemoveJournal(id)]) == d.(journals := d.journals - {id})
    decreases |names|
  {
    var script := DeleteBlobs(id, names) + [RemoveJournal(id)];
    if names == [] {
      assert d.journals[id] == map[];
      assert script == [RemoveJournal(id)] && script[1..] == [];
      assert Run(d, script) == Run(Step(d, script[0]), []);
    } else {
      assert script[0] == DeleteBlob(id, names[0]) && script[1..] == DeleteBlobs(id, names[1..]) + [RemoveJournal(id)];
      assert names[0] in d.journals[id];
      var e := Step(d, script[0]);
      ListingShrinks(names, d.journals[id]);
      RemovingEmpties(e, id, names[1..]);
      assert e.journals - {id} == d.journals - {id};
    }
  }

  lemma RemoveTreeEmpties(d: Disk, id: string)
    requires id in d.journals
    ensures Run(d, RemoveTree(d, id)) == d.(journals := d.journals - {id})
  {
    DescendingSorted(d.journals[id].Keys);
    RemovingEmpties(d, id, Descending(d.journals[id].Keys));
  }

  /** A journal that recovery does not refuse is gone afterwards, the others are as they were. */
  lemma RecoverOneEmpties(d: Disk, id: string)
    requires id in d.journals && RecoverOne(d, id).outcome == Done
    ensures var e := Run(d, RecoverOne(d, id).script); e.journals == d.journals - {id} && e.root == d.root
  {
    var dir := d.journals[id];
    RemoveTreeEmpties(d, id);
    if MANIFEST in dir && dir[MANIFEST].Doc? && dir[MANIFEST].manifest.status == PUBLISHING {
      assert PUBLISHING != COMPLETE by { assert |PUBLISHING| != |COMPLETE|; }
      var writes := RestoreWrites(dir, dir[MANIFEST].manifest.files);
      var restore := WriteAll(d.files, writes);
      RunWriteAll(d, writes);
      RemoveTreeEmpties(Run(d, restore), id);
      RunConcat(d, restore, RemoveTree(Run(d, restore), id));
    }
  }

  lemma {:induction false} RecoverFromEmpties(d: Disk, ids: seq<string>)
    requires d.root && (forall id :: id in d.journals ==> id in ids) && RecoverFrom(d, ids).outcome == Done
    ensures var e := Run(d, RecoverFrom(d, ids).script); e.journals == map[] && !e.root
    decreases |ids|
  {
    if ids == [] {
      assert d.journals == map[];
      var script := [RemoveRoot];
      assert script[1..] == [] && Run(d, script) == Run(Step(d, script[0]), []);
    } else {
      var one := if ids[0] in d.journals then RecoverOne(d, ids[0]) else Recovery([], [], Done);
      if ids[0] in d.journals { RecoverOneEmpties(d, ids[0]); }
      var e := Run(d, one.script);
      RecoverFromEmpties(e, ids[1..]);
      RunConcat(d, one.script, RecoverFrom(e, ids[1..]).script);
    }
  }

  /** Recovery is idempotent: once it has run to its end without a refusal, a second one takes no step. */
  lemma RecoverTwice(d: Disk)
    requires Recover(d).outcome == Done
    ensures Recover(Run(d, Recover(d).script)) == Recovery([], [], Done)
  {
    if d.root {
      AscendingSorted(d.journals.Keys);
      RecoverFromEmpties(d, Ascending(d.journals.Keys));
    }
  }
}
