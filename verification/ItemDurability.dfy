/**
 The commits of the Item Lab on the journal: file by file, crash by crash, what is on disk is the store of
 `ItemFiles` before the commit or the one after it, the catalog and the ledger included.
 */
module ItemDurability {
  import opened Basics
  import opened ItemFiles
  import Catalog
  import Journal
  import JournalSafety
  import JournalTheorems

  /** The files that a commit stages; the library source is rewritten by a create but holds no state of the store. */
  datatype Target = ItemFile(path: Path) | CatalogFile | LibraryFile | LedgerFile

  /** Where each file lies, and how its content is written and read. */
  datatype Codec = Codec(
    name: Target -> string,
    writeFile: Fields -> Bytes, readFile: Bytes -> File,
    writeCatalog: seq<Catalog.Line> -> Bytes, readCatalog: Bytes -> seq<Catalog.Line>,
    writeLedger: seq<Catalog.Entry> -> Bytes, readLedger: Bytes -> seq<Catalog.Entry>)

  /** Different files have different paths, and a written registry reads back. */
  ghost predicate Sound(k: Codec) {
    && (forall a, b :: k.name(a) == k.name(b) ==> a == b)
    && (forall c :: k.readCatalog(k.writeCatalog(c)) == c)
    && (forall l :: k.readLedger(k.writeLedger(l)) == l)
  }

  ghost predicate ShowsFile(k: Codec, disk: map<string, Bytes>, files: Files, p: Path) {
    var name := k.name(ItemFile(p));
    if p in files then name in disk && k.readFile(disk[name]) == files[p] else name !in disk
  }

  ghost predicate ShowsRegistry(k: Codec, disk: map<string, Bytes>, r: Catalog.Registry) {
    && k.name(CatalogFile) in disk && k.readCatalog(disk[k.name(CatalogFile)]) == r.catalog
    && k.name(LedgerFile) in disk && k.readLedger(disk[k.name(LedgerFile)]) == r.ledger
  }

  /** The repository files hold exactly this store. */
  ghost predicate OnDisk(k: Codec, s: Store, disk: map<string, Bytes>) {
    (forall p :: ShowsFile(k, disk, s.files, p)) && ShowsRegistry(k, disk, s.registry)
  }

  // What a commit stages.

  datatype Put = Put(target: Target, bytes: Bytes)

  function WritesOf(k: Codec, puts: seq<Put>): seq<Journal.Write> {
    seq(|puts|, i requires 0 <= i < |puts| => Journal.Write(k.name(puts[i].target), Some(puts[i].bytes)))
  }

  /** The writes of `planned_item_files`. */
  function PlanPuts(k: Codec, tag: string, id: int, plan: Plan): seq<Put> {
    [Put(ItemFile(Items(tag)), k.writeFile(plan.gameplay)),
      Put(ItemFile(Presentation(tag)), k.writeFile(plan.presentation))]
    + (if plan.equipment.None? then []
       else [Put(ItemFile(Equipment(plan.equipment.value.0)), k.writeFile(plan.equipment.value.1))])
    + [Put(ItemFile(Notes(IntText(id))), k.writeFile(plan.notes))]
  }

  /** The registry files that a create stages before them, with the new text of the library. */
  function RegistryPuts(k: Codec, r: Catalog.Registry, library: Bytes): seq<Put> {
    [Put(CatalogFile, k.writeCatalog(r.catalog)), Put(LibraryFile, library), Put(LedgerFile, k.writeLedger(r.ledger))]
  }

  /** What a commit is about to publish. */
  datatype Pending = Pending(registry: Catalog.Registry, id: int, plan: Plan)

  /** What a create publishes; None when it is refused or answered before it stages anything. */
  function PendingCreate(s: Store, payload: Fields, orders: Orders): Option<Pending> {
    if !ValidPayload(payload, true) || Items(LabelOf(payload)) in s.files then None
    else
      var created := Catalog.Create(s.registry, LabelOf(payload));
      if created.Err? then None
      else
        var plan := Planned(s.files, payload, created.value.id, orders.plan);
        if plan.Err? then None else Some(Pending(created.value.registry, created.value.id, plan.value))
  }

  /** What a save publishes. */
  function PendingSave(s: Store, payload: Fields, revision: Revision, orders: Orders): Option<Pending> {
    if !ValidPayload(payload, false) || Items(LabelOf(payload)) !in s.files then None
    else
      var current := Snapshot(s.files, LabelOf(payload), orders.check);
      if current.Err? || SaveCheck(s, payload, revision, current.value).Some? then None
      else
        var plan := Planned(s.files, payload, current.value.id, orders.plan);
        if plan.Err? then None else Some(Pending(s.registry, current.value.id, plan.value))
  }

  function CreatePuts(k: Codec, tag: string, c: Pending, library: Bytes): seq<Put> {
    RegistryPuts(k, c.registry, library) + PlanPuts(k, tag, c.id, c.plan)
  }

  // Where the writes land.

  ghost predicate DistinctTargets(puts: seq<Put>) {
    forall i, j :: 0 <= i < j < |puts| ==> puts[i].target != puts[j].target
  }

  function StagedFor(k: Codec, disk: map<string, Bytes>, puts: seq<Put>): seq<Journal.Staged> {
    Journal.StageAll(disk, WritesOf(k, puts))
  }

  function AfterPuts(k: Codec, disk: map<string, Bytes>, puts: seq<Put>): map<string, Bytes> {
    JournalSafety.AfterFiles(disk, StagedFor(k, disk, puts))
  }

  lemma PutsAgree(k: Codec, disk: map<string, Bytes>, puts: seq<Put>)
    requires Sound(k) && DistinctTargets(puts)
    ensures JournalSafety.Agreeing(StagedFor(k, disk, puts))
  {
    var staged := StagedFor(k, disk, puts);
    forall i, j | 0 <= i < |staged| && 0 <= j < |staged| && staged[i].path == staged[j].path
      ensures staged[i].after == staged[j].after
    {
      assert puts[i].target == puts[j].target;
      if i < j { assert false; }
    }
  }

  /** The content of one target afterwards: what was staged for it, or what it was. */
  function PutFor(puts: seq<Put>, t: Target): (b: Option<Bytes>)
    ensures b.None? ==> forall i :: 0 <= i < |puts| ==> puts[i].target != t
    ensures b.Some? ==> exists i :: 0 <= i < |puts| && puts[i] == Put(t, b.value)
  {
    if puts == [] then None
    else
      var n := |puts| - 1;
      if puts[n].target == t then Some(puts[n].bytes) else PutFor(puts[..n], t)
  }

  lemma PutsLand(k: Codec, disk: map<string, Bytes>, puts: seq<Put>, t: Target)
    requires Sound(k) && DistinctTargets(puts)
    ensures Journal.Lookup(AfterPuts(k, disk, puts), k.name(t)) ==
      if PutFor(puts, t).Some? then PutFor(puts, t) else Journal.Lookup(disk, k.name(t))
  {
    var staged := StagedFor(k, disk, puts);
    PutsAgree(k, disk, puts);
    JournalSafety.AfterFilesLookup(disk, staged, k.name(t));
    if PutFor(puts, t).Some? {
      var i :| 0 <= i < |puts| && puts[i] == Put(t, PutFor(puts, t).value);
      assert staged[i].path == k.name(t) && staged[i].after == Some(puts[i].bytes);
    } else {
      forall i | 0 <= i < |staged| ensures staged[i].path != k.name(t) {
        assert puts[i].target != t;
      }
    }
  }

  lemma PutForConcat(a: seq<Put>, b: seq<Put>, t: Target)
    ensures PutFor(a + b, t) == if PutFor(b, t).Some? then PutFor(b, t) else PutFor(a, t)
  {
    if b == [] {
      assert a + b == a;
    } else {
      assert (a + b)[..|a + b| - 1] == a + b[..|b| - 1];
      PutForConcat(a, b[..|b| - 1], t);
    }
  }

  lemma PutForOne(target: Target, bytes: Bytes, t: Target)
    ensures PutFor([Put(target, bytes)], t) == if target == t then Some(bytes) else None
  {
  }

  /** What the plan holds for a file, if it writes it. */
  function PlanFor(tag: string, id: int, plan: Plan, p: Path): Option<Fields> {
    if p == Items(tag) then Some(plan.gameplay)
    else if p == Presentation(tag) then Some(plan.presentation)
    else if p == Notes(IntText(id)) then Some(plan.notes)
    else if plan.equipment.Some? && p == Equipment(plan.equipment.value.0) then Some(plan.equipment.value.1)
    else None
  }

  /** The files of the plan read back as they were written. */
  ghost predicate ReadsBack(k: Codec, tag: string, id: int, plan: Plan) {
    forall p :: PlanFor(tag, id, plan, p).Some? ==>
      k.readFile(k.writeFile(PlanFor(tag, id, plan, p).value)) == Doc(PlanFor(tag, id, plan, p).value)
  }

  lemma PlanPutFor(k: Codec, tag: string, id: int, plan: Plan, t: Target)
    ensures PutFor(PlanPuts(k, tag, id, plan), t) ==
      if t.ItemFile? && PlanFor(tag, id, plan, t.path).Some? then
        Some(k.writeFile(PlanFor(tag, id, plan, t.path).value))
      else None
  {
    var a := Put(ItemFile(Items(tag)), k.writeFile(plan.gameplay));
    var b := Put(ItemFile(Presentation(tag)), k.writeFile(plan.presentation));
    var d := Put(ItemFile(Notes(IntText(id))), k.writeFile(plan.notes));
    PutForOne(a.target, a.bytes, t);
    PutForOne(b.target, b.bytes, t);
    PutForOne(d.target, d.bytes, t);
    PutForConcat([a], [b], t);
    assert [a] + [b] == [a, b];
    if plan.equipment.Some? {
      var e := Put(ItemFile(Equipment(plan.equipment.value.0)), k.writeFile(plan.equipment.value.1));
      PutForOne(e.target, e.bytes, t);
      PutForConcat([a, b], [e], t);
      PutForConcat([a, b] + [e], [d], t);
    } else {
      assert [a, b] + [] == [a, b];
      PutForConcat([a, b], [d], t);
    }
  }

  lemma PublishedIs(files: Files, tag: string, id: int, plan: Plan, p: Path)
    ensures At(Published(files, tag, id, plan), p) ==
      if PlanFor(tag, id, plan, p).Some? then Some(Doc(PlanFor(tag, id, plan, p).value)) else At(files, p)
  {
  }

  lemma PlanShown(k: Codec, s: Store, disk: map<string, Bytes>, puts: seq<Put>, tag: string, id: int, plan: Plan,
      p: Path)
    requires Sound(k) && OnDisk(k, s, disk) && DistinctTargets(puts) && ReadsBack(k, tag, id, plan)
    requires PutFor(puts, ItemFile(p)) == PutFor(PlanPuts(k, tag, id, plan), ItemFile(p))
    ensures ShowsFile(k, AfterPuts(k, disk, puts), Published(s.files, tag, id, plan), p)
  {
    assert ShowsFile(k, disk, s.files, p);
    PlanPutFor(k, tag, id, plan, ItemFile(p));
    PutsLand(k, disk, puts, ItemFile(p));
    PublishedIs(s.files, tag, id, plan, p);
  }

  // The two commits.

  lemma SaveLands(k: Codec, s: Store, disk: map<string, Bytes>, tag: string, id: int, plan: Plan)
    requires Sound(k) && OnDisk(k, s, disk) && ReadsBack(k, tag, id, plan)
    ensures DistinctTargets(PlanPuts(k, tag, id, plan))
    ensures OnDisk(k, Store(Published(s.files, tag, id, plan), s.registry),
      AfterPuts(k, disk, PlanPuts(k, tag, id, plan)))
  {
    var puts := PlanPuts(k, tag, id, plan);
    PlanDistinct(k, tag, id, plan);
    forall p ensures ShowsFile(k, AfterPuts(k, disk, puts), Published(s.files, tag, id, plan), p) {
      PlanShown(k, s, disk, puts, tag, id, plan, p);
    }
    PlanPutFor(k, tag, id, plan, CatalogFile);
    PlanPutFor(k, tag, id, plan, LedgerFile);
    PutsLand(k, disk, puts, CatalogFile);
    PutsLand(k, disk, puts, LedgerFile);
  }

  lemma RegistryPutFor(k: Codec, r: Catalog.Registry, library: Bytes, t: Target)
    ensures PutFor(RegistryPuts(k, r, library), t) ==
      match t
      case CatalogFile => Some(k.writeCatalog(r.catalog))
      case LibraryFile => Some(library)
      case LedgerFile => Some(k.writeLedger(r.ledger))
      case ItemFile(_) => None
  {
    var a, b, c := Put(CatalogFile, k.writeCatalog(r.catalog)), Put(LibraryFile, library),
      Put(LedgerFile, k.writeLedger(r.ledger));
    PutForOne(a.target, a.bytes, t);
    PutForOne(b.target, b.bytes, t);
    PutForOne(c.target, c.bytes, t);
    PutForConcat([a], [b], t);
    PutForConcat([a] + [b], [c], t);
    assert [a] + [b] + [c] == [a, b, c];
  }

  lemma PlanDistinct(k: Codec, tag: string, id: int, plan: Plan)
    ensures DistinctTargets(PlanPuts(k, tag, id, plan))
    ensures forall put :: put in PlanPuts(k, tag, id, plan) ==> put.target.ItemFile?
  {
  }

  lemma CreateDistinct(k: Codec, r: Catalog.Registry, library: Bytes, tag: string, id: int, plan: Plan)
    ensures DistinctTargets(RegistryPuts(k, r, library) + PlanPuts(k, tag, id, plan))
  {
    PlanDistinct(k, tag, id, plan);
  }

  lemma CreateLands(
      k: Codec, s: Store, disk: map<string, Bytes>, r: Catalog.Registry, library: Bytes, tag: string, id: int,
      plan: Plan)
    requires Sound(k) && OnDisk(k, s, disk) && ReadsBack(k, tag, id, plan)
    ensures var puts := RegistryPuts(k, r, library) + PlanPuts(k, tag, id, plan);
      DistinctTargets(puts) && OnDisk(k, Store(Published(s.files, tag, id, plan), r), AfterPuts(k, disk, puts))
  {
    var puts := RegistryPuts(k, r, library) + PlanPuts(k, tag, id, plan);
    CreateDistinct(k, r, library, tag, id, plan);
    forall p ensures ShowsFile(k, AfterPuts(k, disk, puts), Published(s.files, tag, id, plan), p) {
      RegistryPutFor(k, r, library, ItemFile(p));
      PutForConcat(RegistryPuts(k, r, library), PlanPuts(k, tag, id, plan), ItemFile(p));
      PlanShown(k, s, disk, puts, tag, id, plan, p);
    }
    RegistryLands(k, disk, r, library, PlanPuts(k, tag, id, plan), tag, id, plan);
  }

  lemma RegistryLands(
      k: Codec, disk: map<string, Bytes>, r: Catalog.Registry, library: Bytes, planned: seq<Put>, tag: string, id: int,
      plan: Plan)
    requires Sound(k) && planned == PlanPuts(k, tag, id, plan) && DistinctTargets(RegistryPuts(k, r, library) + planned)
    ensures ShowsRegistry(k, AfterPuts(k, disk, RegistryPuts(k, r, library) + planned), r)
  {
    var puts := RegistryPuts(k, r, library) + planned;
    PlanPutFor(k, tag, id, plan, CatalogFile);
    PlanPutFor(k, tag, id, plan, LedgerFile);
    RegistryPutFor(k, r, library, CatalogFile);
    RegistryPutFor(k, r, library, LedgerFile);
    PutForConcat(RegistryPuts(k, r, library), planned, CatalogFile);
    PutForConcat(RegistryPuts(k, r, library), planned, LedgerFile);
    PutsLand(k, disk, puts, CatalogFile);
    PutsLand(k, disk, puts, LedgerFile);
  }

  /** The files after a process ran the whole save, or died in it at `cut` and was recovered. */
  ghost function Survives(
      d: Journal.Disk, id: string, staged: seq<Journal.Staged>, valid: bool, cut: Journal.Cut, cuts: seq<Journal.Cut>)
    : map<string, Bytes>
  {
    var crashed :=
      JournalTheorems.Recoveries(Journal.Crash(d, JournalTheorems.SaveScript(d, id, staged, valid), cut), cuts);
    Journal.Run(crashed, Journal.Recover(crashed).script).files
  }

  ghost function Completes(d: Journal.Disk, id: string, staged: seq<Journal.Staged>, valid: bool): map<string, Bytes> {
    Journal.Run(d, JournalTheorems.SaveScript(d, id, staged, valid)).files
  }

  lemma PutsAreAtomic(
      k: Codec, s: Store, t: Store, d: Journal.Disk, id: string, puts: seq<Put>, valid: bool, cut: Journal.Cut,
      cuts: seq<Journal.Cut>)
    requires Sound(k) && OnDisk(k, s, d.files) && d.journals == map[] && DistinctTargets(puts)
    requires OnDisk(k, t, AfterPuts(k, d.files, puts))
    ensures var staged := StagedFor(k, d.files, puts);
      && OnDisk(k, if valid then t else s, Completes(d, id, staged, valid))
      && OnDisk(k, if JournalTheorems.Commits(d, id, staged, valid, cut) then t else s,
                Survives(d, id, staged, valid, cut, cuts))
      && (JournalTheorems.Commits(d, id, staged, valid, cut) ==> valid)
  {
    var staged := StagedFor(k, d.files, puts);
    PutsAgree(k, d.files, puts);
    JournalTheorems.UninterruptedSave(d, id, staged, valid);
    JournalTheorems.AllOrNothing(d, id, staged, valid, cut, cuts);
  }

  /**
   An item create is atomic on disk. Run to its end, the steps of the journal leave exactly the store that the
   one-step commit gives. Interrupted anywhere, with any number of interrupted recoveries after it, the first
   complete recovery leaves that store or the one before: item files, catalog and ledger together.
   */
  lemma CreateIsAtomic(
      k: Codec, s: Store, d: Journal.Disk, id: string, payload: Fields, orders: Orders, library: Bytes, valid: bool,
      cut: Journal.Cut, cuts: seq<Journal.Cut>)
    requires Sound(k) && OnDisk(k, s, d.files) && d.journals == map[] && PendingCreate(s, payload, orders).Some?
    requires var c := PendingCreate(s, payload, orders).value; ReadsBack(k, LabelOf(payload), c.id, c.plan)
    ensures var c := PendingCreate(s, payload, orders).value;
      var staged := StagedFor(k, d.files, CreatePuts(k, LabelOf(payload), c, library));
      var t := CommitCreate(s, payload, orders, valid).store;
      && OnDisk(k, t, Completes(d, id, staged, valid))
      && OnDisk(k, if JournalTheorems.Commits(d, id, staged, valid, cut) then t else s,
                Survives(d, id, staged, valid, cut, cuts))
  {
    var c, tag := PendingCreate(s, payload, orders).value, LabelOf(payload);
    CreateLands(k, s, d.files, c.registry, library, tag, c.id, c.plan);
    var t := Store(Published(s.files, tag, c.id, c.plan), c.registry);
    PutsAreAtomic(k, s, t, d, id, CreatePuts(k, tag, c, library), valid, cut, cuts);
  }

  /** An item save is atomic on disk in the same sense; it never touches the catalog or the ledger. */
  lemma SaveIsAtomic(
      k: Codec, s: Store, d: Journal.Disk, id: string, payload: Fields, revision: Revision, orders: Orders, valid: bool,
      cut: Journal.Cut, cuts: seq<Journal.Cut>)
    requires Sound(k) && OnDisk(k, s, d.files) && d.journals == map[] && PendingSave(s, payload, revision, orders).Some?
    requires var c := PendingSave(s, payload, revision, orders).value; ReadsBack(k, LabelOf(payload), c.id, c.plan)
    ensures var c := PendingSave(s, payload, revision, orders).value;
      var staged := StagedFor(k, d.files, PlanPuts(k, LabelOf(payload), c.id, c.plan));
      var t := CommitSave(s, payload, revision, orders, valid).store;
      && t.registry == s.registry && OnDisk(k, t, Completes(d, id, staged, valid))
      && OnDisk(k, if JournalTheorems.Commits(d, id, staged, valid, cut) then t else s,
                Survives(d, id, staged, valid, cut, cuts))
  {
    var c, tag := PendingSave(s, payload, revision, orders).value, LabelOf(payload);
    SaveLands(k, s, d.files, tag, c.id, c.plan);
    var t := Store(Published(s.files, tag, c.id, c.plan), s.registry);
    PutsAreAtomic(k, s, t, d, id, PlanPuts(k, tag, c.id, c.plan), valid, cut, cuts);
  }

  /** A commit with nothing to publish leaves the store alone. */
  lemma RefusedCommitsStay(s: Store, payload: Fields, revision: Revision, orders: Orders, valid: bool)
    ensures PendingCreate(s, payload, orders).None? ==> CommitCreate(s, payload, orders, valid).store == s
    ensures PendingSave(s, payload, revision, orders).None? ==>
      CommitSave(s, payload, revision, orders, valid).store == s
  {
  }
}
