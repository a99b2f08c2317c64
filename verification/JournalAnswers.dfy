/** What recovery makes of each journal directory it finds, and in which order, told on the disk itself. */
module JournalAnswers {
  import opened Basics
  import opened Names
  import opened Journal
  import opened JournalIdempotence

  /** The listing order of names: the first character in which they differ decides, and the shorter comes first. */
  ghost predicate ListedBefore(a: string, b: string) {
    exists n: nat :: DifferAt(a, b, n) && n < |b| && (n < |a| ==> a[n] < b[n])
  }

  predicate DifferAt(a: string, b: string, n: nat) {
    n <= |a| && n <= |b| && a[..n] == b[..n]
  }

  lemma {:induction false} LessIsListedBefore(a: string, b: string)
    ensures Less(a, b) <==> ListedBefore(a, b)
  {
    if a != [] && b != [] && a[0] == b[0] {
      LessIsListedBefore(a[1..], b[1..]);
      if n: nat :| DifferAt(a[1..], b[1..], n) && n < |b[1..]| && (n < |a[1..]| ==> a[1..][n] < b[1..][n]) {
        assert a[..n + 1] == [a[0]] + a[1..][..n] && b[..n + 1] == [b[0]] + b[1..][..n];
        assert DifferAt(a, b, n + 1);
      }
      if n: nat :| DifferAt(a, b, n) && n < |b| && (n < |a| ==> a[n] < b[n]) {
        assert a[..n][1..] == a[1..][..n - 1] && b[..n][1..] == b[1..][..n - 1];
        assert DifferAt(a[1..], b[1..], n - 1);
      }
    } else if Less(a, b) {
      assert DifferAt(a, b, 0);
    }
  }

  /** The image can be read: it was absent, or the directory has it. */
  predicate HasImage(dir: map<string, Blob>, name: Option<string>) {
    name.Some? ==> name.value in dir && dir[name.value].Data?
  }

  predicate Readable(dir: map<string, Blob>, row: Entry) { HasImage(dir, row.before) && HasImage(dir, row.after) }

  /** The file is as the image says: missing for an absent one, and with its bytes otherwise. */
  predicate IsAt(files: map<string, Bytes>, path: string, dir: map<string, Blob>, name: Option<string>) {
    match name
    case None => path !in files
    case Some(n) => path in files && n in dir && dir[n] == Data(files[path])
  }

  predicate RowAgrees(files: map<string, Bytes>, dir: map<string, Blob>, row: Entry) {
    Readable(dir, row) && (IsAt(files, row.path, dir, row.before) || IsAt(files, row.path, dir, row.after))
  }

  /** The first row that does not agree. */
  predicate FirstOff(files: map<string, Bytes>, dir: map<string, Blob>, rows: seq<Entry>, i: int) {
    0 <= i < |rows| && !RowAgrees(files, dir, rows[i]) && forall j :: 0 <= j < i ==> RowAgrees(files, dir, rows[j])
  }

  /** The first row that does not agree, and why it stops recovery. */
  predicate StopsAt(files: map<string, Bytes>, id: string, dir: map<string, Blob>, rows: seq<Entry>, i: int,
      outcome: Outcome) {
    FirstOff(files, dir, rows, i)
    && outcome == if Readable(dir, rows[i]) then Refused(rows[i].path, id) else Unreadable(id)
  }

  lemma NamedTells(files: map<string, Bytes>, path: string, dir: map<string, Blob>, name: Option<string>)
    ensures Named(dir, name).Some? <==> HasImage(dir, name)
    ensures HasImage(dir, name) ==> (Named(dir, name) == Some(Lookup(files, path)) <==> IsAt(files, path, dir, name))
  {
  }

  lemma {:induction false} CompareTells(files: map<string, Bytes>, id: string, dir: map<string, Blob>,
      rows: seq<Entry>)
    ensures Compare(files, id, dir, rows) == Done <==> forall i :: 0 <= i < |rows| ==> RowAgrees(files, dir, rows[i])
    ensures Compare(files, id, dir, rows) != Done ==>
      exists i :: StopsAt(files, id, dir, rows, i, Compare(files, id, dir, rows))
  {
    if rows != [] {
      NamedTells(files, rows[0].path, dir, rows[0].before);
      NamedTells(files, rows[0].path, dir, rows[0].after);
      CompareTells(files, id, dir, rows[1..]);
      if !RowAgrees(files, dir, rows[0]) {
        assert StopsAt(files, id, dir, rows, 0, Compare(files, id, dir, rows));
      } else {
        AgreeLater(files, dir, rows);
        if i :| StopsAt(files, id, dir, rows[1..], i, Compare(files, id, dir, rows[1..])) {
          forall j | 0 <= j < i + 1 ensures RowAgrees(files, dir, rows[j]) {
            if j > 0 { assert rows[j] == rows[1..][j - 1]; }
          }
          assert StopsAt(files, id, dir, rows, i + 1, Compare(files, id, dir, rows));
        }
      }
    }
  }

  lemma AgreeLater(files: map<string, Bytes>, dir: map<string, Blob>, rows: seq<Entry>)
    requires rows != [] && RowAgrees(files, dir, rows[0])
    ensures (forall i :: 0 <= i < |rows| ==> RowAgrees(files, dir, rows[i])) <==>
      (forall i :: 0 <= i < |rows[1..]| ==> RowAgrees(files, dir, rows[1..][i]))
  {
    forall i | 1 <= i < |rows| ensures rows[i] == rows[1..][i - 1] {
    }
  }

  /** Every listed file is as the before-image of its last row says, and every other file as it was. */
  ghost predicate PutsBack(before: map<string, Bytes>, after: map<string, Bytes>, dir: map<string, Blob>,
      rows: seq<Entry>) {
    && (forall i :: 0 <= i < |rows| && LastRow(rows, i) ==> IsAt(after, rows[i].path, dir, rows[i].before))
    && (forall path :: Unlisted(rows, path) ==>
          (path in after <==> path in before) && (path in before ==> after[path] == before[path]))
  }

  predicate LastRow(rows: seq<Entry>, i: int) {
    0 <= i < |rows| && forall j :: i < j < |rows| ==> rows[j].path != rows[i].path
  }

  predicate Unlisted(rows: seq<Entry>, path: string) { forall i :: 0 <= i < |rows| ==> rows[i].path != path }

  lemma {:induction false} RestoreTells(files: map<string, Bytes>, dir: map<string, Blob>, rows: seq<Entry>)
    requires forall i :: 0 <= i < |rows| ==> HasImage(dir, rows[i].before)
    ensures PutsBack(files, PutAll(files, RestoreWrites(dir, rows)), dir, rows)
    decreases |rows|
  {
    if rows != [] {
      var writes := RestoreWrites(dir, rows);
      var first := Put(files, writes[0].path, writes[0].payload);
      assert writes[1..] == RestoreWrites(dir, rows[1..]);
      RestoreTells(first, dir, rows[1..]);
      var after := PutAll(files, writes);
      assert after == PutAll(first, writes[1..]);
      forall i | 0 <= i < |rows| && LastRow(rows, i) ensures IsAt(after, rows[i].path, dir, rows[i].before) {
        if i > 0 {
          assert rows[i] == rows[1..][i - 1] && LastRow(rows[1..], i - 1);
        } else {
          assert Unlisted(rows[1..], rows[0].path);
        }
      }
      forall path | Unlisted(rows, path)
        ensures (path in after <==> path in files) && (path in files ==> after[path] == files[path])
      {
        assert rows[0].path != path && Unlisted(rows[1..], path);
      }
    }
  }

  /** The directory of a journal that says `publishing`, with its rows. */
  predicate Publishes(dir: map<string, Blob>, rows: seq<Entry>) {
    && "manifest.json" in dir && dir["manifest.json"].Doc?
    && dir["manifest.json"].manifest.status == "publishing" && dir["manifest.json"].manifest.files == rows
  }

  /** The journal is removed and nothing else has changed. */
  predicate OnlyRemoved(before: Disk, id: string, after: Disk) {
    after == before.(journals := before.journals - {id})
  }

  /** How recovery passes a journal directory, and the note it leaves. */
  ghost predicate Passes(before: Disk, id: string, after: Disk, notes: seq<Note>) {
    id in before.journals
    && var dir := before.journals[id];
    if "manifest.json" !in dir then OnlyRemoved(before, id, after) && notes == [RemovedIncomplete(id)]
    else
      dir["manifest.json"].Doc?
      && var manifest := dir["manifest.json"].manifest;
      if manifest.status == "complete" then OnlyRemoved(before, id, after) && notes == []
      else if manifest.status != "publishing" then OnlyRemoved(before, id, after) && notes == [Discarded(id)]
      else
        && (forall i :: 0 <= i < |manifest.files| ==> RowAgrees(before.files, dir, manifest.files[i]))
        && PutsBack(before.files, after.files, dir, manifest.files)
        && OnlyRemoved(before, id, after.(files := before.files)) && notes == [Restored(id)]
  }

  /** Where recovery stops, and why. */
  ghost predicate Stops(d: Disk, id: string, outcome: Outcome) {
    id in d.journals && "manifest.json" in d.journals[id]
    && var dir := d.journals[id];
    match dir["manifest.json"]
    case Data(_) => outcome == Unreadable(id)
    case Doc(manifest) =>
      manifest.status == "publishing"
      && exists i :: StopsAt(d.files, id, dir, manifest.files, i, outcome)
  }

  lemma Statuses()
    ensures "publishing" != "complete"
  {
    assert |"publishing"| != |"complete"|;
  }

  lemma OneTells(d: Disk, id: string)
    requires id in d.journals
    ensures var one := RecoverOne(d, id);
      if one.outcome == Done then Passes(d, id, Run(d, one.script), one.notes)
      else Stops(d, id, one.outcome) && one.script == [] && one.notes == []
  {
    var dir := d.journals[id];
    RemoveTreeEmpties(d, id);
    Statuses();
    if MANIFEST in dir && dir[MANIFEST].Doc? && dir[MANIFEST].manifest.status == PUBLISHING {
      var rows := dir[MANIFEST].manifest.files;
      CompareTells(d.files, id, dir, rows);
      if Compare(d.files, id, dir, rows) == Done { RestoredTells(d, id, rows); }
    }
  }

  lemma RestoredNotes(d: Disk, id: string, rows: seq<Entry>)
    requires id in d.journals && Publishes(d.journals[id], rows)
    requires Compare(d.files, id, d.journals[id], rows) == Done
    ensures RecoverOne(d, id).notes == [Restored(id)]
  {
    Statuses();
  }

  lemma RestoredTells(d: Disk, id: string, rows: seq<Entry>)
    requires id in d.journals && Publishes(d.journals[id], rows)
    requires forall i :: 0 <= i < |rows| ==> RowAgrees(d.files, d.journals[id], rows[i])
    requires Compare(d.files, id, d.journals[id], rows) == Done
    ensures var one := RecoverOne(d, id); Passes(d, id, Run(d, one.script), one.notes) && one.outcome == Done
  {
    Statuses();
    RestoredNotes(d, id, rows);
    var dir := d.journals[id];
    var writes := RestoreWrites(dir, rows);
    var restore := WriteAll(d.files, writes);
    RunWriteAll(d, writes);
    RemoveTreeEmpties(Run(d, restore), id);
    RunConcat(d, restore, RemoveTree(Run(d, restore), id));
    RestoreTells(d.files, dir, rows);
  }

  /** The names of the journals in listing order. */
  ghost predicate Lists(ids: seq<string>, d: Disk) {
    && (forall id :: id in ids <==> id in d.journals)
    && forall i, j :: 0 <= i < j < |ids| ==> ListedBefore(ids[i], ids[j])
  }

  function Joined(noted: seq<seq<Note>>): seq<Note> {
    if noted == [] then [] else noted[0] + Joined(noted[1..])
  }

  /** Recovery has passed the first journals of the listing one after the other. */
  ghost predicate PassesFirst(ids: seq<string>, disks: seq<Disk>, noted: seq<seq<Note>>) {
    && |disks| == |noted| + 1 && |noted| <= |ids|
    && forall i :: 0 <= i < |noted| ==> Passes(disks[i], ids[i], disks[i + 1], noted[i])
  }

  /** How a recovery ends: the recovery directory goes when every journal was passed; otherwise one stops it. */
  ghost predicate Ends(ids: seq<string>, disks: seq<Disk>, noted: seq<seq<Note>>, after: Disk, outcome: Outcome)
    requires PassesFirst(ids, disks, noted)
  {
    var last := disks[|noted|];
    if |noted| == |ids| then outcome == Done && after == last.(root := false)
    else after == last && Stops(last, ids[|noted|], outcome)
  }

  lemma ListsRest(ids: seq<string>, d: Disk, e: Disk)
    requires ids != [] && Lists(ids, d) && e.journals == d.journals - {ids[0]}
    ensures Lists(ids[1..], e)
  {
    forall j | 1 <= j < |ids| ensures ids[j] != ids[0] {
      LessIsListedBefore(ids[0], ids[j]);
      LessIrreflexive(ids[0]);
    }
    forall id ensures id in ids[1..] <==> id in e.journals {
      if id in ids[1..] { assert id in ids; }
      if id in ids && id != ids[0] {
        var k :| 0 <= k < |ids| && ids[k] == id;
        assert ids[1..][k - 1] == id;
      }
    }
    forall i, j | 0 <= i < j < |ids[1..]| ensures ListedBefore(ids[1..][i], ids[1..][j]) {
      assert ListedBefore(ids[i + 1], ids[j + 1]);
    }
  }

  lemma {:induction false} TellsFrom(d: Disk, ids: seq<string>) returns (disks: seq<Disk>, noted: seq<seq<Note>>)
    requires d.root && Lists(ids, d)
    ensures PassesFirst(ids, disks, noted) && disks[0] == d && Joined(noted) == RecoverFrom(d, ids).notes
    ensures Ends(ids, disks, noted, Run(d, RecoverFrom(d, ids).script), RecoverFrom(d, ids).outcome)
    decreases |ids|
  {
    if ids == [] {
      disks, noted := [d], [];
      RootGoes(d);
    } else {
      assert ids[0] in d.journals;
      var one := RecoverOne(d, ids[0]);
      OneTells(d, ids[0]);
      if one.outcome != Done {
        disks, noted := [d], [];
      } else {
        var e := Run(d, one.script);
        ListsRest(ids, d, e);
        var later, notes := TellsFrom(e, ids[1..]);
        RunConcat(d, one.script, RecoverFrom(e, ids[1..]).script);
        FirstPassed(ids, d, one.notes, later, notes, Run(d, RecoverFrom(d, ids).script), RecoverFrom(d, ids).outcome);
        disks, noted := [d] + later, [one.notes] + notes;
      }
    }
  }

  /** A journal passed ahead of the others. */
  lemma FirstPassed(ids: seq<string>, d: Disk, first: seq<Note>, later: seq<Disk>, notes: seq<seq<Note>>, after: Disk,
      outcome: Outcome)
    requires ids != [] && PassesFirst(ids[1..], later, notes) && Ends(ids[1..], later, notes, after, outcome)
    requires Passes(d, ids[0], later[0], first)
    ensures PassesFirst(ids, [d] + later, [first] + notes) && Joined([first] + notes) == first + Joined(notes)
    ensures Ends(ids, [d] + later, [first] + notes, after, outcome)
  {
    var disks, noted := [d] + later, [first] + notes;
    assert noted[1..] == notes;
    forall i | 0 <= i < |noted| ensures Passes(disks[i], ids[i], disks[i + 1], noted[i]) {
      if i > 0 { assert Passes(later[i - 1], ids[1..][i - 1], later[i], notes[i - 1]); }
    }
    assert disks[|noted|] == later[|notes|];
  }

  lemma RootGoes(d: Disk)
    requires d.root && Lists([], d)
    ensures Run(d, RecoverFrom(d, []).script) == d.(root := false) && RecoverFrom(d, []).outcome == Done
  {
    assert d.journals == map[];
    var script := [RemoveRoot];
    assert script[1..] == [] && Run(d, script) == Run(Step(d, script[0]), []);
  }

  /**
   Recovery goes through the journals in listing order. Incomplete ones, finished ones and ones of another
   status are removed; a publishing one whose files all agree has its files put back first; the first journal
   that cannot be read or has a file of neither image stops it. The notes say so in that order.
   */
  lemma RecoveryTells(d: Disk) returns (ids: seq<string>, disks: seq<Disk>, noted: seq<seq<Note>>)
    requires d.root
    ensures Lists(ids, d) && PassesFirst(ids, disks, noted) && disks[0] == d
    ensures Joined(noted) == Recover(d).notes
    ensures Ends(ids, disks, noted, Run(d, Recover(d).script), Recover(d).outcome)
  {
    ids := Ascending(d.journals.Keys);
    AscendingSorted(d.journals.Keys);
    forall i, j | 0 <= i < j < |ids| ensures ListedBefore(ids[i], ids[j]) {
      LessIsListedBefore(ids[i], ids[j]);
    }
    disks, noted := TellsFrom(d, ids);
  }
}
