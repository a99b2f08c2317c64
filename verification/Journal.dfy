/**
 The file journal of `tools/authoring_save.py`, as scripts of primitive file steps.

 A process runs a script step by step and may die between any two steps, or in the middle of a write
 that is not an atomic replace (which leaves arbitrary bytes behind). The classes of module
 AuthoringSave perform exactly these scripts; module JournalSafety proves what they guarantee.
 */
module Journal {
  import opened Basics
  import opened Names

  // Journal documents.

  const PUBLISHING := "publishing"
  const COMPLETE := "complete"

  /** One `files` row of a manifest: the path and the names of its two images, if it has them. */
  datatype Entry = Entry(path: string, before: Option<string>, after: Option<string>)

  datatype Manifest = Manifest(status: string, operationId: string, files: seq<Entry>)

  /** The content of a file in a journal directory: raw bytes, or a manifest document. */
  datatype Blob = Data(bytes: Bytes) | Doc(manifest: Manifest)

  // The disk.

  /**
   `files` are the repository files, `temps` the `<name>.<uuid>.tmp` files written so far and not yet
   renamed (a fresh uuid never overwrites an older one), `root` says whether the recovery directory
   exists and `journals` holds its sub-directories.
   */
  datatype Disk = Disk(
    files: map<string, Bytes>,
    temps: seq<(string, Bytes)>,
    root: bool,
    journals: map<string, map<string, Blob>>)

  datatype Primitive =
    | MakeRoot
    | MakeJournal(id: string)
    | PutBlob(id: string, name: string, blob: Blob)
    | RenameBlob(id: string, name: string, to: string)
    | DeleteBlob(id: string, name: string)
    | RemoveJournal(id: string)
    | RemoveRoot
    | PutTemp(path: string, bytes: Bytes)
    | CommitTemp(path: string)
    | Delete(path: string)

  /** When the operating system accepts a step; otherwise the call raises. */
  predicate Enabled(d: Disk, p: Primitive) {
    match p
    case MakeRoot => true
    case MakeJournal(id) => d.root && id !in d.journals
    case PutBlob(id, _, _) => id in d.journals
    case RenameBlob(id, name, _) => id in d.journals && name in d.journals[id]
    case DeleteBlob(id, name) => id in d.journals && name in d.journals[id]
    case RemoveJournal(id) => id in d.journals && d.journals[id] == map[]
    case RemoveRoot => d.root && d.journals == map[]
    case PutTemp(_, _) => true
    case CommitTemp(path) => d.temps != [] && d.temps[|d.temps| - 1].0 == path
    case Delete(path) => path in d.files
  }

  function Step(d: Disk, p: Primitive): Disk {
    if !Enabled(d, p) then d else
    match p
    case MakeRoot => d.(root := true)
    case MakeJournal(id) => d.(journals := d.journals[id := map[]])
    case PutBlob(id, name, blob) => d.(journals := d.journals[id := d.journals[id][name := blob]])
    case RenameBlob(id, name, to) =>
      var dir := d.journals[id];
      d.(journals := d.journals[id := (dir - {name})[to := dir[name]]])
    case DeleteBlob(id, name) => d.(journals := d.journals[id := d.journals[id] - {name}])
    case RemoveJournal(id) => d.(journals := d.journals - {id})
    case RemoveRoot => d.(root := false)
    case PutTemp(path, bytes) => d.(temps := d.temps + [(path, bytes)])
    case CommitTemp(path) =>
      var last := |d.temps| - 1;
      d.(files := d.files[path := d.temps[last].1], temps := d.temps[..last])
    case Delete(path) => d.(files := d.files - {path})
  }

  function Run(d: Disk, script: seq<Primitive>): Disk
    decreases |script|
  {
    if script == [] then d else Run(Step(d, script[0]), script[1..])
  }

  /** A death in the middle of a step: a write that is not a replace may leave any content. */
  function Torn(d: Disk, p: Primitive, junk: Blob): Disk {
    match p
    case PutBlob(id, name, _) => Step(d, PutBlob(id, name, junk))
    case PutTemp(path, _) => if junk.Data? then Step(d, PutTemp(path, junk.bytes)) else d
    case _ => d
  }

  /** Where a process dies: after `steps` steps, inside the next one when `junk` is given. */
  datatype Cut = Cut(steps: nat, junk: Option<Blob>)

  function Crash(d: Disk, script: seq<Primitive>, cut: Cut): Disk
    decreases |script|
  {
    if script == [] then d
    else if cut.steps > 0 then Crash(Step(d, script[0]), script[1..], Cut(cut.steps - 1, cut.junk))
    else if cut.junk.Some? then Torn(d, script[0], cut.junk.value)
    else d
  }

  function Lookup(files: map<string, Bytes>, path: string): Option<Bytes> {
    if path in files then Some(files[path]) else None
  }

  function Put(files: map<string, Bytes>, path: string, payload: Option<Bytes>): map<string, Bytes> {
    match payload
    case None => files - {path}
    case Some(bytes) => files[path := bytes]
  }

  // Writing.

  datatype Write = Write(path: string, payload: Option<Bytes>)

  /** `_write`: unlink when the payload is absent, otherwise a temporary file and an atomic replace. */
  function WriteOne(files: map<string, Bytes>, w: Write): seq<Primitive> {
    match w.payload
    case None => if w.path in files then [Delete(w.path)] else []
    case Some(bytes) => [PutTemp(w.path, bytes), CommitTemp(w.path)]
  }

  function WriteAll(files: map<string, Bytes>, writes: seq<Write>): seq<Primitive>
    decreases |writes|
  {
    if writes == [] then []
    else WriteOne(files, writes[0]) + WriteAll(Put(files, writes[0].path, writes[0].payload), writes[1..])
  }

  /** `_write_json` of the manifest. */
  function WriteManifest(id: string, manifest: Manifest): seq<Primitive> {
    [PutBlob(id, MANIFEST_TEMP, Doc(manifest)), RenameBlob(id, MANIFEST_TEMP, MANIFEST)]
  }

  function DeleteBlobs(id: string, names: seq<string>): seq<Primitive> {
    if names == [] then [] else [DeleteBlob(id, names[0])] + DeleteBlobs(id, names[1..])
  }

  /** `_remove_tree` of one journal directory: children in reverse name order, then the directory. */
  ghost function RemoveTree(d: Disk, id: string): seq<Primitive> {
    if id !in d.journals then []
    else DeleteBlobs(id, Descending(d.journals[id].Keys)) + [RemoveJournal(id)]
  }

  // Publishing.

  datatype Staged = Staged(path: string, before: Option<Bytes>, after: Option<Bytes>)

  /** What staging these writes against these files collects. */
  function StageAll(files: map<string, Bytes>, writes: seq<Write>): seq<Staged> {
    seq(|writes|,
      i requires 0 <= i < |writes| => Staged(writes[i].path, Lookup(files, writes[i].path), writes[i].payload))
  }

  function OneImage(id: string, name: string, image: Option<Bytes>): seq<Primitive> {
    if image.None? then [] else [PutBlob(id, name, Data(image.value))]
  }

  function Images(id: string, staged: seq<Staged>, from: nat): seq<Primitive>
    decreases |staged| - from
  {
    if from >= |staged| then []
    else
      OneImage(id, BeforeName(from), staged[from].before)
      + OneImage(id, AfterName(from), staged[from].after)
      + Images(id, staged, from + 1)
  }

  function EntryOf(s: Staged, index: nat): Entry {
    Entry(s.path,
          if s.before.Some? then Some(BeforeName(index)) else None,
          if s.after.Some? then Some(AfterName(index)) else None)
  }

  function Entries(staged: seq<Staged>): seq<Entry> {
    seq(|staged|, i requires 0 <= i < |staged| => EntryOf(staged[i], i))
  }

  function ManifestOf(id: string, staged: seq<Staged>, status: string): Manifest {
    Manifest(status, id, Entries(staged))
  }

  function AfterWrites(staged: seq<Staged>): seq<Write> {
    seq(|staged|, i requires 0 <= i < |staged| => Write(staged[i].path, staged[i].after))
  }

  function BeforeWrites(staged: seq<Staged>): seq<Write> {
    seq(|staged|, i requires 0 <= i < |staged| => Write(staged[i].path, staged[i].before))
  }

  /** The part of `publish` that runs before any target file is touched. */
  function Prepare(id: string, staged: seq<Staged>): seq<Primitive> {
    [MakeRoot, MakeJournal(id)] + Images(id, staged, 0) + WriteManifest(id, ManifestOf(id, staged, PUBLISHING))
  }

  /** `AuthoringOperation.publish`. */
  function Publish(d: Disk, id: string, staged: seq<Staged>): seq<Primitive> {
    if staged == [] then [] else Prepare(id, staged) + WriteAll(d.files, AfterWrites(staged))
  }

  /** `AuthoringOperation.finish`: the second step of the manifest replace is the commit. */
  ghost function Finish(d: Disk, id: string, staged: seq<Staged>): seq<Primitive> {
    if staged == [] then [] else
      var seal := WriteManifest(id, ManifestOf(id, staged, COMPLETE));
      seal + RemoveTree(Run(d, seal), id)
  }

  // Recovery.

  datatype Outcome = Done | Refused(path: string, journal: string) | Unreadable(journal: string)

  datatype Note = RemovedIncomplete(id: string) | Discarded(id: string) | Restored(id: string)

  datatype Recovery = Recovery(script: seq<Primitive>, notes: seq<Note>, outcome: Outcome)

  /** `_named`: no name is an absent image; a missing file raises (`None`). */
  function Named(dir: map<string, Blob>, name: Option<string>): Option<Option<Bytes>> {
    if name.None? then Some(None)
    else if name.value in dir && dir[name.value].Data? then Some(Some(dir[name.value].bytes))
    else None
  }

  /** The comparison loop: every current file must equal its before-image or its after-image. */
  function Compare(files: map<string, Bytes>, id: string, dir: map<string, Blob>, entries: seq<Entry>): Outcome {
    if entries == [] then Done else
      var entry := entries[0];
      var before, after := Named(dir, entry.before), Named(dir, entry.after);
      if before.None? || after.None? then Unreadable(id)
      else
        var current := Lookup(files, entry.path);
        if current == after.value || current == before.value then Compare(files, id, dir, entries[1..])
        else Refused(entry.path, id)
  }

  function RestoreWrites(dir: map<string, Blob>, entries: seq<Entry>): seq<Write> {
    seq(|entries|, i requires 0 <= i < |entries| =>
      var image := Named(dir, entries[i].before);
      Write(entries[i].path, if image.Some? then image.value else None))
  }

  /** What `recover_authoring` does with one journal directory. */
  ghost function RecoverOne(d: Disk, id: string): Recovery
    requires id in d.journals
  {
    var dir := d.journals[id];
    if MANIFEST !in dir then Recovery(RemoveTree(d, id), [RemovedIncomplete(id)], Done)
    else if dir[MANIFEST].Data? then Recovery([], [], Unreadable(id))
    else
      var manifest := dir[MANIFEST].manifest;
      if manifest.status == COMPLETE then Recovery(RemoveTree(d, id), [], Done)
      else if manifest.status != PUBLISHING then Recovery(RemoveTree(d, id), [Discarded(id)], Done)
      else
        var verdict := Compare(d.files, id, dir, manifest.files);
        if verdict != Done then Recovery([], [], verdict)
        else
          var restore := WriteAll(d.files, RestoreWrites(dir, manifest.files));
          Recovery(restore + RemoveTree(Run(d, restore), id), [Restored(id)], Done)
  }

  ghost function RecoverFrom(d: Disk, ids: seq<string>): Recovery
    decreases |ids|
  {
    if ids == [] then
      Recovery(if d.root && d.journals == map[] then [RemoveRoot] else [], [], Done)
    else
      var one := if ids[0] in d.journals then RecoverOne(d, ids[0]) else Recovery([], [], Done);
      if one.outcome != Done then one
      else
        var rest := RecoverFrom(Run(d, one.script), ids[1..]);
        Recovery(one.script + rest.script, one.notes + rest.notes, rest.outcome)
  }

  /** `recover_authoring`. */
  ghost function Recover(d: Disk): Recovery {
    if !d.root then Recovery([], [], Done) else RecoverFrom(d, Ascending(d.journals.Keys))
  }

  // Running scripts.

  lemma {:induction false} RunConcat(d: Disk, s: seq<Primitive>, t: seq<Primitive>)
    ensures Run(d, s + t) == Run(Run(d, s), t)
    decreases |s|
  {
    if s == [] {
      assert s + t == t;
    } else {
      assert (s + t)[0] == s[0] && (s + t)[1..] == s[1..] + t;
      RunConcat(Step(d, s[0]), s[1..], t);
    }
  }

  /** A cut inside `s + t` falls in `s`, or after all of `s` and inside `t`. */
  lemma {:induction false} CrashConcat(d: Disk, s: seq<Primitive>, t: seq<Primitive>, cut: Cut)
    ensures cut.steps < |s| ==> Crash(d, s + t, cut) == Crash(d, s, cut)
    ensures cut.steps >= |s| ==> Crash(d, s + t, cut) == Crash(Run(d, s), t, Cut(cut.steps - |s|, cut.junk))
    decreases |s|
  {
    if s == [] {
      assert s + t == t;
    } else {
      assert (s + t)[0] == s[0] && (s + t)[1..] == s[1..] + t;
      if cut.steps > 0 {
        CrashConcat(Step(d, s[0]), s[1..], t, Cut(cut.steps - 1, cut.junk));
      }
    }
  }

  /** A process that is not cut runs its whole script. */
  lemma {:induction false} CrashBeyond(d: Disk, s: seq<Primitive>, cut: Cut)
    requires cut.steps >= |s|
    ensures Crash(d, s, cut) == Run(d, s)
    decreases |s|
  {
    if s != [] { CrashBeyond(Step(d, s[0]), s[1..], Cut(cut.steps - 1, cut.junk)); }
  }

  // The files after a list of writes.

  function PutAll(files: map<string, Bytes>, writes: seq<Write>): map<string, Bytes>
    decreases |writes|
  {
    if writes == [] then files else PutAll(Put(files, writes[0].path, writes[0].payload), writes[1..])
  }

  lemma RunWriteOne(d: Disk, w: Write)
    ensures Run(d, WriteOne(d.files, w)) == d.(files := Put(d.files, w.path, w.payload))
  {
    var first := WriteOne(d.files, w);
    match w.payload {
      case None =>
        if w.path in d.files {
          assert first == [Delete(w.path)] && Run(d, first) == Run(Step(d, first[0]), []);
        } else {
          assert Put(d.files, w.path, w.payload) == d.files;
        }
      case Some(bytes) =>
        var mid := Step(d, first[0]);
        assert mid.temps[..|mid.temps| - 1] == d.temps;
        assert first[1..] == [CommitTemp(w.path)];
        assert Run(d, first) == Run(mid, first[1..]) == Run(Step(mid, first[1]), []);
    }
  }

  lemma {:induction false} RunWriteAll(d: Disk, writes: seq<Write>)
    ensures Run(d, WriteAll(d.files, writes)) == d.(files := PutAll(d.files, writes))
    decreases |writes|
  {
    if writes != [] {
      var w := writes[0];
      var e := d.(files := Put(d.files, w.path, w.payload));
      RunWriteOne(d, w);
      RunConcat(d, WriteOne(d.files, w), WriteAll(e.files, writes[1..]));
      RunWriteAll(e, writes[1..]);
    }
  }

  lemma {:induction false} WriteAllConcat(files: map<string, Bytes>, s: seq<Write>, t: seq<Write>)
    ensures WriteAll(files, s + t) == WriteAll(files, s) + WriteAll(PutAll(files, s), t)
    decreases |s|
  {
    if s == [] {
      assert s + t == t;
    } else {
      assert (s + t)[0] == s[0] && (s + t)[1..] == s[1..] + t;
      WriteAllConcat(Put(files, s[0].path, s[0].payload), s[1..], t);
    }
  }
}
