/** The Item Lab's commits as they change the files, against the specification in `ItemFiles`. */
module ItemLab {
  import opened Basics
  import opened ItemFiles
  import Catalog

  class Lab {
    var files: Files
    var registry: Catalog.Registry

    function Now(): Store
      reads this
    {
      Store(files, registry)
    }

    /** The equipment loop of `snapshot_item`. */
    method ScanEquipment(order: seq<string>, id: int) returns (r: Result<Option<File>>)
      ensures r == FindEquipment(files, order, id)
    {
      var i := 0;
      while i < |order|
        invariant 0 <= i <= |order|
        invariant FindEquipment(files, order, id) == FindEquipment(files, order[i..], id)
      {
        var f := At(files, Equipment(order[i]));
        assert order[i..][1..] == order[i + 1..];
        if f == Some(NotDict) { return Err(Broken); }
        if f.Some? && Carries(f.value, id) { return Ok(f); }
        i := i + 1;
      }
      r := Ok(None);
    }

    /** `equipment_path` */
    method ScanPath(order: seq<string>, id: int) returns (r: Result<Option<string>>)
      ensures r == EquipmentPath(files, order, id)
    {
      var i := 0;
      while i < |order|
        invariant 0 <= i <= |order|
        invariant EquipmentPath(files, order, id) == EquipmentPath(files, order[i..], id)
      {
        var f := At(files, Equipment(order[i]));
        assert order[i..][1..] == order[i + 1..];
        if f == Some(NotDict) || f == Some(NotText) { return Err(Broken); }
        if f.Some? && Carries(f.value, id) { return Ok(Some(order[i])); }
        i := i + 1;
      }
      r := Ok(None);
    }

    /** `publish_files` of one plan; a failed validation rolls the files back. */
    method Publish(tag: string, id: int, plan: Plan, valid: bool)
      modifies `files
      ensures files == if valid then Published(old(files), tag, id, plan) else old(files)
    {
      var before := files;
      files := files[Items(tag) := Doc(plan.gameplay)];
      files := files[Presentation(tag) := Doc(plan.presentation)];
      if plan.equipment.Some? {
        files := files[Equipment(plan.equipment.value.0) := Doc(plan.equipment.value.1)];
      }
      files := files[Notes(IntText(id)) := Doc(plan.notes)];
      if !valid { files := before; }
    }

    /** `commit_item_create` */
    method Create(payload: Fields, orders: Orders, valid: bool) returns (result: Result<Reply>)
      modifies this
      ensures Outcome(Now(), result) == CommitCreate(old(Now()), payload, orders, valid)
    {
      if !ValidPayload(payload, true) { return Err(Rejected); }
      var tag := LabelOf(payload);
      if Items(tag) in files {
        var current := Snapshot(files, tag, orders.check);
        if current.Err? { return Err(current.error); }
        var same := SameDraft(current.value, payload);
        if same.Err? { return Err(same.error); }
        if same.value { return Replied(current, true); }
        return Err(Conflict);
      }
      var id := Catalog.NextItemId(registry.catalog, registry.ledger);
      if id.Err? { return Err(Registry(id.error)); }
      var catalog := Catalog.InsertCatalog(registry.catalog, tag, id.value);
      if catalog.Err? { return Err(Registry(catalog.error)); }
      var ledger := Catalog.InsertLedger(registry.ledger, tag, id.value);
      if ledger.Err? { return Err(Registry(ledger.error)); }
      var plan := Planned(files, payload, id.value, orders.plan);
      if plan.Err? { return Err(plan.error); }
      Publish(tag, id.value, plan.value, valid);
      if !valid { return Err(InvalidPack); }
      registry := Catalog.Registry(catalog.value, ledger.value);
      result := Replied(Snapshot(files, tag, orders.read), false);
    }

    /** `commit_item_save` */
    method Save(payload: Fields, revision: Revision, orders: Orders, valid: bool) returns (result: Result<Reply>)
      modifies `files
      ensures Outcome(Now(), result) == CommitSave(old(Now()), payload, revision, orders, valid)
    {
      if !ValidPayload(payload, false) { return Err(Rejected); }
      var tag := LabelOf(payload);
      if Items(tag) !in files { return Err(Rejected); }
      var current := Snapshot(files, tag, orders.check);
      if current.Err? { return Err(current.error); }
      var refused := SaveCheck(Now(), payload, revision, current.value);
      if refused.Some? { return Err(refused.value); }
      var plan := Planned(files, payload, current.value.id, orders.plan);
      if plan.Err? { return Err(plan.error); }
      Publish(tag, current.value.id, plan.value, valid);
      if !valid { return Err(InvalidPack); }
      result := Replied(Snapshot(files, tag, orders.read), false);
    }
  }
}
