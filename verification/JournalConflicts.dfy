/**
 What happens when one path is staged twice with different new content: some crash leaves a journal
 that recovery refuses for ever. So agreement of the staged paths is exactly what a save needs.
 */
module JournalConflicts {
  import opened Basics
  import opened Journal
  import opened JournalSafety
  import opened JournalTheorems

  /** A path holds the last payload written to it. */
  lemma {:induction false} LastWriteWins(files: map<string, Bytes>, writes: seq<Write>, i: nat)
    requires i < |writes| && forall j :: i < j < |writes| ==> writes[j].path != writes[i].path
    ensures Lookup(PutAll(files, writes), writes[i].path) == writes[i].payload
    decreases |writes|
  {
    var next := Put(files, writes[0].path, writes[0].payload);
    if i > 0 {
      LastWriteWins(next, writes[1..], i - 1);
    } else {
      OtherWritesKeep(next, writes[1..], writes[0].path);
    }
  }

  lemma {:induction false} OtherWritesKeep(files: map<string, Bytes>, writes: seq<Write>, path: string)
    requires forall j :: 0 <= j < |writes| ==> writes[j].path != path
    ensures Lookup(PutAll(files, writes), path) == Lookup(files, path)
    decreases |writes|
  {
    if writes != [] { OtherWritesKeep(Put(files, writes[0].path, writes[0].payload), writes[1..], path); }
  }

  /** The disk after the journal is prepared and the first `n` targets are written is a crash state. */
  lemma CrashAfterWrites(d: Disk, c: Save, n: nat) returns (cut: Cut)
    requires ReadBefore(c) && c.staged != [] && n <= |c.staged|
    requires d.journals == map[] && d.files == c.files && d.temps == c.temps
    ensures var e := Crash(d, Publish(d, c.id, c.staged), cut);
      && Publishing(e, c) && e.root && e.journals.Keys == {c.id}
      && e.files == PutAll(c.files, AfterWrites(c.staged)[..n])
  {
    var prepare, writes := Prepare(c.id, c.staged), AfterWrites(c.staged);
    PrepareThroughout(d, c);
    var ready := Run(d, prepare);
    var done, rest := WriteAll(d.files, writes[..n]), WriteAll(PutAll(d.files, writes[..n]), writes[n..]);
    PublishSplits(d, c, n);
    cut := Cut(|prepare + done|, None);
    CrashConcat(d, prepare + done, rest, cut);
    RunConcat(d, prepare, done);
    RunWriteAll(ready, writes[..n]);
    assert Crash(Run(d, prepare + done), rest, Cut(0, None)) == Run(d, prepare + done);
  }

  lemma PublishSplits(d: Disk, c: Save, n: nat)
    requires c.staged != [] && n <= |c.staged|
    ensures var prepare, writes := Prepare(c.id, c.staged), AfterWrites(c.staged);
      Publish(d, c.id, c.staged) ==
        (prepare + WriteAll(d.files, writes[..n])) + WriteAll(PutAll(d.files, writes[..n]), writes[n..])
  {
    var writes := AfterWrites(c.staged);
    assert writes == writes[..n] + writes[n..];
    WriteAllConcat(d.files, writes[..n], writes[n..]);
  }

  lemma StuckWhenNeitherImage(d: Disk, c: Save, i: nat)
    requires Publishing(d, c) && d.root && d.journals.Keys == {c.id} && i < |c.staged|
    requires Lookup(d.files, c.staged[i].path) != c.staged[i].before
      && Lookup(d.files, c.staged[i].path) != c.staged[i].after
    ensures Recover(d).outcome.Refused?
  {
    assert Entries(c.staged)[0..] == Entries(c.staged);
    CompareImages(d, c, 0);
    SingletonListing(c.id);
    assert PUBLISHING != COMPLETE by { assert |PUBLISHING| != |COMPLETE|; }
    assert RecoverOne(d, c.id).outcome.Refused?;
    assert Recover(d) == RecoverFrom(d, [c.id]);
  }

  lemma LastOccurrence(staged: seq<Staged>, i: nat) returns (k: nat)
    requires i < |staged|
    ensures i <= k < |staged| && staged[k].path == staged[i].path
    ensures forall j :: k < j < |staged| ==> staged[j].path != staged[k].path
  {
    k := |staged| - 1;
    while staged[k].path != staged[i].path
      invariant i <= k < |staged|
      invariant forall j :: k < j < |staged| ==> staged[j].path != staged[i].path
      decreases k
    {
      k := k - 1;
    }
  }

  /** Two different new contents for one path: some crash of `publish` is refused by recovery. */
  lemma ConflictGetsStuck(d: Disk, c: Save, i: nat, j: nat) returns (cut: Cut)
    requires ReadBefore(c) && d.journals == map[] && d.files == c.files && d.temps == c.temps
    requires i < |c.staged| && j < |c.staged|
    requires c.staged[i].path == c.staged[j].path && c.staged[i].after != c.staged[j].after
    ensures Recover(Crash(d, Publish(d, c.id, c.staged), cut)).outcome.Refused?
  {
    var writes := AfterWrites(c.staged);
    var last := LastOccurrence(c.staged, i);
    var k := if c.staged[i].after != c.staged[last].after then i else j;
    assert c.staged[k].after != c.staged[last].after && c.staged[k].path == c.staged[last].path;
    assert c.staged[k].before == c.staged[last].before;
    if c.staged[last].after != c.staged[k].before {
      cut := CrashAfterWrites(d, c, |c.staged|);
      assert writes[..|c.staged|] == writes;
      LastWriteWins(c.files, writes, last);
      StuckWhenNeitherImage(Crash(d, Publish(d, c.id, c.staged), cut), c, k);
    } else {
      cut := CrashAfterWrites(d, c, k + 1);
      LastWriteWins(c.files, writes[..k + 1], k);
      StuckWhenNeitherImage(Crash(d, Publish(d, c.id, c.staged), cut), c, last);
    }
  }

  /** Recovery accepts every crash of a publish if and only if no path is staged with two new contents. */
  lemma RecoverableIffAgreeing(d: Disk, id: string, staged: seq<Staged>)
    requires d.journals == map[] && ReadBefore(Save(id, staged, d.files, d.temps))
    ensures (forall cut :: Recover(Crash(d, Publish(d, id, staged), cut)).outcome == Done) <==> Agreeing(staged)
  {
    var c := Save(id, staged, d.files, d.temps);
    if Agreeing(staged) {
      forall cut ensures Recover(Crash(d, Publish(d, id, staged), cut)).outcome == Done {
        if staged == [] {
          UnwrittenIsMixed(c);
          RecoverThroughout(d, c, false);
        } else {
          PublishThroughout(d, c);
          ThroughoutCrash(d, Publish(d, id, staged), c, false, cut);
          RecoverThroughout(Crash(d, Publish(d, id, staged), cut), c, false);
        }
      }
    } else {
      var i, j :| 0 <= i < |staged| && 0 <= j < |staged| && staged[i].path == staged[j].path
        && staged[i].after != staged[j].after;
      var cut := ConflictGetsStuck(d, c, i, j);
    }
  }
}
