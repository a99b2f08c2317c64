/** What creates and saves of items keep: the plan reads back as the draft, and an item's identity never changes. */
module ItemTheorems {
  import opened Basics
  import opened NpcDocument
  import opened ItemFiles
  import Catalog

  // The search for the equipment file.

  /** The search stops at the first file that carries the id; it raises only at a file that is no object. */
  lemma {:induction false} FindFinds(files: Files, order: seq<string>, id: int)
    requires forall n :: n in order ==> Equipment(n) in files
    ensures var r := FindEquipment(files, order, id);
      match r
      case Err(e) => exists n :: n in order && files[Equipment(n)] == NotDict
      case Ok(None) => forall n :: n in order ==> !Carries(files[Equipment(n)], id)
      case Ok(Some(f)) => exists n :: n in order && f == files[Equipment(n)] && Carries(f, id)
    decreases |order|
  {
    if order != [] {
      assert order[0] in order;
      FindFinds(files, order[1..], id);
    }
  }

  lemma {:induction false} PathFinds(files: Files, order: seq<string>, id: int)
    requires forall n :: n in order ==> Equipment(n) in files
    ensures var r := EquipmentPath(files, order, id);
      && (r.Ok? && r.value.Some? ==> r.value.value in order && Carries(files[Equipment(r.value.value)], id))
      && (r.Ok? && r.value.None? ==> forall n :: n in order ==> !Carries(files[Equipment(n)], id))
    decreases |order|
  {
    if order != [] {
      assert order[0] in order;
      PathFinds(files, order[1..], id);
    }
  }

  /** Any file of the directory can come first in a listing. */
  lemma ToFront(files: Files, order: seq<string>, name: string) returns (front: seq<string>)
    requires Lists(files, order) && Equipment(name) in files
    ensures Lists(files, front) && front != [] && front[0] == name
  {
    var k :| 0 <= k < |order| && order[k] == name;
    front := [name] + order[..k] + order[k + 1..];
    forall n | n in order ensures n in front {
      var i :| 0 <= i < |order| && order[i] == n;
      assert n == front[if i < k then i + 1 else if i == k then 0 else i];
    }
  }

  // The plan reads back.

  lemma FieldNames()
    ensures "schema_version" != "equipment_slot" && "schema_version" != "id" && "id" != "label"
      && "schema_version" != "label"
    ensures "equipment_slot" != "id" && "equipment_slot" != "label"
    ensures "category" != "id" && "category" != "label" && "category" != "stack_limit"
    ensures "stack_limit" != "id" && "stack_limit" != "label"
    ensures "drop_requires_confirmation" != "id" && "drop_requires_confirmation" != "label"
    ensures "drop_requires_confirmation" != "category" && "drop_requires_confirmation" != "stack_limit"
    ensures "icon" != "display_name" && "icon" != "description" && "display_name" != "description" && "notes" != "tags"
  {
    assert |"schema_version"| == 14 && "schema_version"[0] == 's' && "equipment_slot"[0] == 'e'
      && |"equipment_slot"| == 14;
    assert |"id"| == 2 && |"label"| == 5 && |"category"| == 8 && |"stack_limit"| == 11
      && |"drop_requires_confirmation"| == 26;
    assert |"icon"| == 4 && |"display_name"| == 12 && |"description"| == 11 && |"notes"| == 5 && |"tags"| == 4;
  }

  /** Everything of the snapshot but the slot and the revision is what the payload said. */
  predicate Shows(item: Item, payload: Fields, id: int)
    requires Labelled(payload)
  {
    && item.id == id && item.tag == Str(LabelOf(payload)) && item.category == Field(payload, "category", Null)
    && item.stackLimit == Int(StackOf(payload))
    && item.confirm == Truthy(Field(payload, "drop_requires_confirmation", Bool(false)))
    && item.displayName == Field(payload, "display_name", Str(""))
    && item.description == Field(payload, "description", Str(""))
    && item.icon == Field(payload, "icon", Str(""))
    && item.notes == Field(payload, "notes", Str("")) && item.tags == Or(Field(payload, "tags", Null), Arr([]))
  }

  /** The gameplay part of `Shows`. */
  lemma GameplayReads(f: Option<File>, payload: Fields, id: int)
    requires Labelled(payload) && Merged(f, GameplayUpdate(payload, id)).Ok?
    ensures var g := Merged(f, GameplayUpdate(payload, id)).value;
      && StoredId(g) == Some(id) && EqualsInt(Field(g, "id", Null), id)
      && Field(g, "label", Str("")) == Str(LabelOf(payload))
      && Field(g, "category", Str("")) == Field(payload, "category", Null)
      && Field(g, "stack_limit", Int(1)) == Int(StackOf(payload))
      && Truthy(Field(g, "drop_requires_confirmation", Bool(false)))
        == Truthy(Field(payload, "drop_requires_confirmation", Bool(false)))
  {
    FieldNames();
  }

  lemma PresentationReads(f: Option<File>, payload: Fields, id: int)
    requires Labelled(payload) && Merged(f, PresentationUpdate(payload, id)).Ok?
    ensures var p := Merged(f, PresentationUpdate(payload, id)).value;
      && Field(p, "icon", Str("")) == Field(payload, "icon", Str(""))
      && Field(p, "display_name", Str("")) == Field(payload, "display_name", Str(""))
      && Field(p, "description", Str("")) == Field(payload, "description", Str(""))
  {
    FieldNames();
  }

  lemma NotesRead(payload: Fields)
    ensures Field(NotesFile(payload), "notes", Str("")) == Field(payload, "notes", Str(""))
    ensures Field(NotesFile(payload), "tags", Arr([])) == Or(Field(payload, "tags", Null), Arr([]))
  {
    FieldNames();
  }

  lemma PublishedAt(files: Files, tag: string, id: int, plan: Plan)
    ensures var after := Published(files, tag, id, plan);
      && At(after, Items(tag)) == Some(Doc(plan.gameplay))
      && At(after, Presentation(tag)) == Some(Doc(plan.presentation))
      && At(after, Notes(IntText(id))) == Some(Doc(plan.notes))
  {
  }

  /**
   Reading back what was planned: the snapshot of the published files shows the payload, and its slot is
   that of the first equipment file carrying the id. It raises only if that search does.
   */
  lemma PlanReadsBack(files: Files, payload: Fields, id: int, order: seq<string>, read: seq<string>)
    requires Labelled(payload) && Planned(files, payload, id, order).Ok?
    ensures var after := Published(files, LabelOf(payload), id, Planned(files, payload, id, order).value);
      var found := FindEquipment(after, read, id);
      var item := Snapshot(after, LabelOf(payload), read);
      && (found.Err? <==> item.Err?)
      && (found.Ok? ==> Shows(item.value, payload, id) && item.value.slot == Worn(found.value))
  {
    var tag := LabelOf(payload);
    GameplayReads(At(files, Items(tag)), payload, id);
    PresentationReads(At(files, Presentation(tag)), payload, id);
    NotesRead(payload);
    PublishedAt(files, tag, id, Planned(files, payload, id, order).value);
  }

  /** A draft agrees with what shows it, whenever its tags can be listed and the slots agree. */
  lemma ShownIsSame(item: Item, payload: Fields, id: int, creating: bool)
    requires ValidPayload(payload, creating) && Shows(item, payload, id)
    ensures SameDraft(item, payload) ==
      if Tags(Field(payload, "tags", Null)).None? then Err(Broken)
      else Ok(Same(Or(item.slot, Null), Or(SlotOf(payload), Null)))
  {
    SameRefl(item.category);
    SameRefl(Or(item.displayName, Str("")));
    SameRefl(Or(item.description, Str("")));
    SameRefl(item.icon);
    SameRefl(Or(item.notes, Str("")));
    var tags := Tags(Field(payload, "tags", Null));
    assert Tags(item.tags) == tags;
    if tags.Some? && tags.value.Elements? { SameRefl(Arr(tags.value.items)); }
  }

  // Repeating a create.

  /** The equipment file that the plan writes, if it writes one. */
  function Written(plan: Plan): Option<string> { if plan.equipment.Some? then Some(plan.equipment.value.0) else None }

  /** The equipment file raises no error and does not give the id another slot. */
  predicate Harmless(f: File, id: int, slot: Json) {
    f != NotDict && (Carries(f, id) ==> Same(Or(SlotOf(f.fields), Null), Or(slot, Null)))
  }

  /**
   What a caller can check before the create: the tags can be listed, and no equipment file besides
   the one that will be written breaks the search or already carries the id with another slot.
   */
  ghost predicate Repeatable(files: Files, payload: Fields, id: int, written: Option<string>) {
    && Tags(Field(payload, "tags", Null)).Some?
    && forall n :: Equipment(n) in files && Some(n) != written ==> Harmless(files[Equipment(n)], id, SlotOf(payload))
  }

  lemma WrittenEquipment(files: Files, payload: Fields, id: int, order: seq<string>, creating: bool)
    requires ValidPayload(payload, creating) && Planned(files, payload, id, order).Ok?
    ensures var plan := Planned(files, payload, id, order).value;
      var after := Published(files, LabelOf(payload), id, plan);
      && (Written(plan).Some? <==> ForEquipment(payload))
      && (Written(plan).Some? ==> var f := after[Equipment(Written(plan).value)];
           Carries(f, id) && SlotOf(f.fields) == SlotOf(payload))
      && (forall n :: Some(n) != Written(plan) ==> (Equipment(n) in after <==> Equipment(n) in files))
      && (forall n :: Some(n) != Written(plan) && Equipment(n) in files ==> after[Equipment(n)] == files[Equipment(n)])
  {
    FieldNames();
  }

  /** The slot found in the published files, for a repeatable create: the one of the payload. */
  lemma RepeatableSlot(files: Files, payload: Fields, id: int, order: seq<string>, read: seq<string>)
    requires ValidPayload(payload, true) && Planned(files, payload, id, order).Ok?
    requires var plan := Planned(files, payload, id, order).value;
      Repeatable(files, payload, id, Written(plan)) && Lists(Published(files, LabelOf(payload), id, plan), read)
    ensures var after := Published(files, LabelOf(payload), id, Planned(files, payload, id, order).value);
      var found := FindEquipment(after, read, id);
      found.Ok? && Same(Or(Worn(found.value), Null), Or(SlotOf(payload), Null))
  {
    var plan := Planned(files, payload, id, order).value;
    var after := Published(files, LabelOf(payload), id, plan);
    WrittenEquipment(files, payload, id, order, true);
    FindFinds(after, read, id);
    SameRefl(Or(SlotOf(payload), Null));
    forall n | n in read ensures Harmless(after[Equipment(n)], id, SlotOf(payload)) {}
  }

  /** A harmful equipment file, listed first, spoils the reading. */
  lemma HarmfulFirst(files: Files, id: int, slot: Json, order: seq<string>)
    requires order != [] && Equipment(order[0]) in files && !Harmless(files[Equipment(order[0])], id, slot)
    ensures var found := FindEquipment(files, order, id);
      found.Err? || !Same(Or(Worn(found.value), Null), Or(slot, Null))
  {
  }

  /** The files in which a repeated create answers with the same id, whatever the directory order. */
  ghost predicate RepeatsWell(first: Outcome, payload: Fields) {
    forall orders: Orders, valid :: Lists(first.store.files, orders.check) ==>
      RepeatedWith(first, CommitCreate(first.store, payload, orders, valid))
  }

  ghost predicate RepeatedWith(first: Outcome, second: Outcome) {
    && second.store == first.store && second.result.Ok? && second.result.value.idempotent
    && (first.result.Ok? ==> second.result.value.id == first.result.value.id)
  }

  /** A create that publishes, taken apart. */
  lemma CreateParts(s: Store, payload: Fields, orders: Orders)
    requires CommitCreate(s, payload, orders, true).store != s
    ensures ValidPayload(payload, true) && Items(LabelOf(payload)) !in s.files
    ensures var created := Catalog.Create(s.registry, LabelOf(payload));
      created.Ok? && Planned(s.files, payload, created.value.id, orders.plan).Ok?
      && CommitCreate(s, payload, orders, true).store == Store(
        Published(s.files, LabelOf(payload), created.value.id,
          Planned(s.files, payload, created.value.id, orders.plan).value),
        created.value.registry)
  {
  }

  lemma SecondCreate(s: Store, payload: Fields, orders: Orders, again: Orders, valid: bool)
    requires CommitCreate(s, payload, orders, true).store != s
    ensures var first := CommitCreate(s, payload, orders, true);
      var id := Catalog.Create(s.registry, LabelOf(payload)).value.id;
      var found := FindEquipment(first.store.files, again.check, id);
      var second := CommitCreate(first.store, payload, again, valid);
      && second.store == first.store
      && (second.result.Ok? <==>
           && found.Ok? && Tags(Field(payload, "tags", Null)).Some?
           && Same(Or(Worn(found.value), Null), Or(SlotOf(payload), Null)))
      && (second.result.Ok? ==> second.result.value.idempotent && second.result.value.id == id)
      && (first.result.Ok? ==> first.result.value.id == id)
  {
    CreateParts(s, payload, orders);
    var id := Catalog.Create(s.registry, LabelOf(payload)).value.id;
    PlanReadsBack(s.files, payload, id, orders.plan, again.check);
    PlanReadsBack(s.files, payload, id, orders.plan, orders.read);
    var after := CommitCreate(s, payload, orders, true).store;
    var item := Snapshot(after.files, LabelOf(payload), again.check);
    if item.Ok? { ShownIsSame(item.value, payload, id, true); }
  }

  /**
   Plan-then-snapshot round trip. After a create has published, repeating it always answers with the same id and
   changes nothing if and only if the tags can be listed and no other equipment file stands in the way.
   `again` is any listing of the equipment directory after the create.
   */
  lemma CreateRepeatsIff(s: Store, payload: Fields, orders: Orders, again: seq<string>)
    requires CommitCreate(s, payload, orders, true).store != s
    requires Lists(CommitCreate(s, payload, orders, true).store.files, again)
    ensures ValidPayload(payload, true) && Catalog.Create(s.registry, LabelOf(payload)).Ok?
    ensures var id := Catalog.Create(s.registry, LabelOf(payload)).value.id;
      var plan := Planned(s.files, payload, id, orders.plan);
      plan.Ok? && (RepeatsWell(CommitCreate(s, payload, orders, true), payload)
        <==> Repeatable(s.files, payload, id, Written(plan.value)))
  {
    CreateParts(s, payload, orders);
    var first := CommitCreate(s, payload, orders, true);
    var id := Catalog.Create(s.registry, LabelOf(payload)).value.id;
    var plan := Planned(s.files, payload, id, orders.plan).value;
    if Repeatable(s.files, payload, id, Written(plan)) {
      forall o: Orders, valid | Lists(first.store.files, o.check)
        ensures RepeatedWith(first, CommitCreate(first.store, payload, o, valid))
      {
        SecondCreate(s, payload, orders, o, valid);
        RepeatableSlot(s.files, payload, id, orders.plan, o.check);
      }
    } else {
      UnrepeatableFails(s, payload, orders, again, id, plan);
    }
  }

  lemma UnrepeatableFails(s: Store, payload: Fields, orders: Orders, again: seq<string>, id: int, plan: Plan)
    requires CommitCreate(s, payload, orders, true).store != s
    requires Lists(CommitCreate(s, payload, orders, true).store.files, again)
    requires ValidPayload(payload, true) && Catalog.Create(s.registry, LabelOf(payload)).Ok?
    requires id == Catalog.Create(s.registry, LabelOf(payload)).value.id
    requires Planned(s.files, payload, id, orders.plan) == Ok(plan)
    requires !Repeatable(s.files, payload, id, Written(plan))
    ensures !RepeatsWell(CommitCreate(s, payload, orders, true), payload)
  {
    var first := CommitCreate(s, payload, orders, true);
    CreateParts(s, payload, orders);
    var order := again;
    if Tags(Field(payload, "tags", Null)).Some? {
      var n :| Equipment(n) in s.files && Some(n) != Written(plan)
        && !Harmless(s.files[Equipment(n)], id, SlotOf(payload));
      WrittenEquipment(s.files, payload, id, orders.plan, true);
      order := ToFront(first.store.files, again, n);
      HarmfulFirst(first.store.files, id, SlotOf(payload), order);
    }
    var o := Orders(order, [], []);
    SecondCreate(s, payload, orders, o, true);
    assert !RepeatedWith(first, CommitCreate(first.store, payload, o, true));
  }

  /** An equipment file left behind for an id that the registry has not given out. */
  function Orphan(s: Store, name: string, id: int): Store {
    s.(files := s.files[Equipment(name) := Doc(map["id" := Int(id), "equipment_slot" := Str("boots")])])
  }

  lemma PublishesWhen(s: Store, payload: Fields, orders: Orders)
    requires ValidPayload(payload, true) && Items(LabelOf(payload)) !in s.files
    requires Catalog.Create(s.registry, LabelOf(payload)).Ok?
    requires Planned(s.files, payload, Catalog.Create(s.registry, LabelOf(payload)).value.id, orders.plan).Ok?
    ensures CommitCreate(s, payload, orders, true).store != s
  {
    var id := Catalog.Create(s.registry, LabelOf(payload)).value.id;
    PublishedItem(s.files, LabelOf(payload), id, Planned(s.files, payload, id, orders.plan).value, LabelOf(payload));
  }

  lemma OrphanPlans(s: Store, payload: Fields, order: seq<string>, name: string, id: int)
    requires Labelled(payload) && !ForEquipment(payload)
    ensures Planned(Orphan(s, name, id).files, payload, id, order) == Planned(s.files, payload, id, order)
  {
  }

  lemma OrphanHarms(s: Store, payload: Fields, name: string, id: int)
    requires ValidPayload(payload, true) && !ForEquipment(payload)
    ensures !Repeatable(Orphan(s, name, id).files, payload, id, None)
  {
    FieldNames();
    var files := Orphan(s, name, id).files;
    assert Carries(files[Equipment(name)], id) && SlotOf(files[Equipment(name)].fields) == Str("boots");
    assert !Harmless(files[Equipment(name)], id, SlotOf(payload));
  }

  /**
   The condition matters: allocation does not look at the equipment directory, so the same create in the same
   store with one left-over equipment file publishes as well, and can then not be repeated.
   */
  lemma OrphanSpoilsRepeat(s: Store, payload: Fields, orders: Orders, name: string, again: seq<string>)
    requires CommitCreate(s, payload, orders, true).store != s && !ForEquipment(payload) && Equipment(name) !in s.files
    requires Catalog.Create(s.registry, Field(payload, "label", Str("")).s).Ok?
    requires var t := Orphan(s, name, Catalog.Create(s.registry, Field(payload, "label", Str("")).s).value.id);
      Lists(CommitCreate(t, payload, orders, true).store.files, again)
    ensures var t := Orphan(s, name, Catalog.Create(s.registry, Field(payload, "label", Str("")).s).value.id);
      CommitCreate(t, payload, orders, true).store != t && !RepeatsWell(CommitCreate(t, payload, orders, true), payload)
  {
    CreateParts(s, payload, orders);
    var id := Catalog.Create(s.registry, LabelOf(payload)).value.id;
    var t := Orphan(s, name, id);
    OrphanPlans(s, payload, orders.plan, name, id);
    PublishesWhen(t, payload, orders);
    OrphanHarms(s, payload, name, id);
    CreateRepeatsIff(t, payload, orders, again);
    WrittenEquipment(t.files, payload, id, orders.plan, true);
  }

  // Runs of commits.

  datatype Op =
    | CreateOp(payload: Fields, orders: Orders, valid: bool)
    | SaveOp(payload: Fields, revision: Revision, orders: Orders, valid: bool)

  function Apply(s: Store, op: Op): Store {
    match op
    case CreateOp(payload, orders, valid) => CommitCreate(s, payload, orders, valid).store
    case SaveOp(payload, revision, orders, valid) => CommitSave(s, payload, revision, orders, valid).store
  }

  function ApplyAll(s: Store, ops: seq<Op>): Store
    decreases |ops|
  {
    if ops == [] then s else ApplyAll(Apply(s, ops[0]), ops[1..])
  }

  /** Id, label and category as they are read; and a stack limit that was readable has not fallen. */
  predicate SameItem(before: Fields, after: Fields) {
    var was, now := ToInt(Field(before, "stack_limit", Int(1))), ToInt(Field(after, "stack_limit", Int(1)));
    && StoredId(after) == StoredId(before)
    && Field(after, "label", Str("")) == Field(before, "label", Str(""))
    && Field(after, "category", Str("")) == Field(before, "category", Str(""))
    && (if was.None? then now.None? else now.Some? && now.value >= was.value)
  }

  /** A gameplay file stays where it is; as an object it keeps its item, and otherwise it is never written. */
  predicate KeepsItem(before: Files, after: Files, tag: string) {
    Items(tag) in before ==>
      && Items(tag) in after
      && (if before[Items(tag)].Doc? then
        after[Items(tag)].Doc? && SameItem(before[Items(tag)].fields, after[Items(tag)].fields)
          else after[Items(tag)] == before[Items(tag)])
  }

  lemma PublishedItem(files: Files, tag: string, id: int, plan: Plan, other: string)
    ensures At(Published(files, tag, id, plan), Items(other)) ==
      if other == tag then Some(Doc(plan.gameplay)) else At(files, Items(other))
  {
  }

  lemma ApplyKeepsItem(s: Store, op: Op, tag: string)
    ensures KeepsItem(s.files, Apply(s, op).files, tag)
  {
    if Apply(s, op) != s {
      if op.SaveOp? {
        SaveKeepsItem(s, op, tag);
      } else {
        assert op.valid;
        CreateParts(s, op.payload, op.orders);
        var id := Catalog.Create(s.registry, LabelOf(op.payload)).value.id;
        PublishedItem(s.files, LabelOf(op.payload), id, Planned(s.files, op.payload, id, op.orders.plan).value, tag);
      }
    }
  }

  /** What the snapshot of a save's check says about the gameplay file. */
  lemma SnapshotGameplay(files: Files, tag: string, order: seq<string>)
    requires Snapshot(files, tag, order).Ok?
    ensures Items(tag) in files && files[Items(tag)].Doc?
    ensures var item, doc := Snapshot(files, tag, order).value, files[Items(tag)].fields;
      && StoredId(doc) == Some(item.id) && item.tag == Field(doc, "label", Str(""))
      && item.category == Field(doc, "category", Str("")) && item.stackLimit == Field(doc, "stack_limit", Int(1))
  {
  }

  lemma SaveKeepsItem(s: Store, op: Op, tag: string)
    requires op.SaveOp? && Apply(s, op) != s
    ensures KeepsItem(s.files, Apply(s, op).files, tag)
  {
    SaveParts(s, op);
    SavedItemKept(s, op.payload, op.revision, op.orders, tag);
  }

  lemma SavedItemKept(s: Store, payload: Fields, revision: Revision, orders: Orders, tag: string)
    requires ValidPayload(payload, false) && Snapshot(s.files, LabelOf(payload), orders.check).Ok?
    requires var current := Snapshot(s.files, LabelOf(payload), orders.check).value;
      SaveCheck(s, payload, revision, current) == None && Planned(s.files, payload, current.id, orders.plan).Ok?
    ensures var id := Snapshot(s.files, LabelOf(payload), orders.check).value.id;
      var plan := Planned(s.files, payload, id, orders.plan).value;
      KeepsItem(s.files, Published(s.files, LabelOf(payload), id, plan), tag)
  {
    var mine := LabelOf(payload);
    var current := Snapshot(s.files, mine, orders.check).value;
    SnapshotGameplay(s.files, mine, orders.check);
    PublishedItem(s.files, mine, current.id, Planned(s.files, payload, current.id, orders.plan).value, tag);
    GameplayReads(At(s.files, Items(mine)), payload, current.id);
  }

  /** A save that publishes, taken apart. */
  lemma SaveParts(s: Store, op: Op)
    requires op.SaveOp? && Apply(s, op) != s
    ensures ValidPayload(op.payload, false) && Snapshot(s.files, LabelOf(op.payload), op.orders.check).Ok?
    ensures var tag := LabelOf(op.payload);
      var current := Snapshot(s.files, tag, op.orders.check).value;
      var plan := Planned(s.files, op.payload, current.id, op.orders.plan);
      && SaveCheck(s, op.payload, op.revision, current) == None && plan.Ok?
      && Apply(s, op) == s.(files := Published(s.files, tag, current.id, plan.value))
  {
  }

  /**
   A save that changes anything was based on exactly the files it replaces, and what it answers shows the
   payload under the item's old id. Only the search for the equipment file can make it answer with an error.
   */
  lemma SaveReadsBack(s: Store, payload: Fields, revision: Revision, orders: Orders)
    requires CommitSave(s, payload, revision, orders, true).store != s
    ensures ValidPayload(payload, false) && Snapshot(s.files, LabelOf(payload), orders.check).Ok?
    ensures var current := Snapshot(s.files, LabelOf(payload), orders.check).value;
      var saved := CommitSave(s, payload, revision, orders, true);
      && revision == current.revision
      && (saved.result.Ok? <==> FindEquipment(saved.store.files, orders.read, current.id).Ok?)
      && (saved.result.Ok? ==>
        saved.result.value.id == current.id && Shows(saved.result.value.item, payload, current.id))
  {
    SaveParts(s, SaveOp(payload, revision, orders, true));
    var current := Snapshot(s.files, LabelOf(payload), orders.check).value;
    PlanReadsBack(s.files, payload, current.id, orders.plan, orders.read);
  }

  /**
   Over any run of creates and saves of any items, accepted or refused, an item's id, label and category stay
   fixed and its stack limit never falls.
   */
  lemma {:induction false} IdentityNeverChanges(s: Store, ops: seq<Op>, tag: string)
    ensures KeepsItem(s.files, ApplyAll(s, ops).files, tag)
    decreases |ops|
  {
    if ops != [] {
      ApplyKeepsItem(s, ops[0], tag);
      IdentityNeverChanges(Apply(s, ops[0]), ops[1..], tag);
    }
  }

  // The slot.

  predicate Carrier(files: Files, n: string, id: int) { Equipment(n) in files && Carries(files[Equipment(n)], id) }

  function SlotAt(files: Files, n: string): Json { Worn(At(files, Equipment(n))) }

  /** All equipment files that carry the id name one slot. */
  ghost predicate Unambiguous(files: Files, id: int) {
    forall m, n :: Carrier(files, m, id) && Carrier(files, n, id) ==> SlotAt(files, m) == SlotAt(files, n)
  }

  ghost predicate SlotsKept(before: Files, after: Files, id: int) {
    forall n ::
      && (Equipment(n) in before <==> Equipment(n) in after)
      && (Carrier(before, n, id) <==> Carrier(after, n, id))
      && (Carrier(before, n, id) ==> SlotAt(before, n) == SlotAt(after, n))
  }

  /** A run of saves, each meeting the equipment directory in some order. */
  ghost predicate Saves(s: Store, ops: seq<Op>)
    decreases |ops|
  {
    ops == [] ||
    (ops[0].SaveOp? && Lists(s.files, ops[0].orders.check) && Lists(s.files, ops[0].orders.plan)
     && Saves(Apply(s, ops[0]), ops[1..]))
  }

  /** A save of equipment rewrites a file that carries the item's id already, with the slot of one that does. */
  lemma SaveWrites(s: Store, op: Op)
    requires op.SaveOp? && Apply(s, op) != s && ForEquipment(op.payload)
    requires Lists(s.files, op.orders.check) && Lists(s.files, op.orders.plan)
    ensures ValidPayload(op.payload, false) && Snapshot(s.files, LabelOf(op.payload), op.orders.check).Ok?
    ensures var id := Snapshot(s.files, LabelOf(op.payload), op.orders.check).value.id;
      var plan := Planned(s.files, op.payload, id, op.orders.plan);
      && plan.Ok? && Written(plan.value).Some? && Carrier(s.files, Written(plan.value).value, id)
      && exists m :: Carrier(s.files, m, id) && SlotAt(s.files, m) == SlotOf(op.payload)
  {
    SaveParts(s, op);
    SaveCarries(s, op.payload, op.revision, op.orders);
  }

  /** The same of a save that passes its checks and can be planned. */
  lemma SaveCarries(s: Store, payload: Fields, revision: Revision, orders: Orders)
    requires ValidPayload(payload, false) && ForEquipment(payload)
    requires Lists(s.files, orders.check) && Lists(s.files, orders.plan)
    requires Snapshot(s.files, LabelOf(payload), orders.check).Ok?
    requires var current := Snapshot(s.files, LabelOf(payload), orders.check).value;
      SaveCheck(s, payload, revision, current) == None && Planned(s.files, payload, current.id, orders.plan).Ok?
    ensures var id := Snapshot(s.files, LabelOf(payload), orders.check).value.id;
      var plan := Planned(s.files, payload, id, orders.plan).value;
      && Written(plan).Some? && Carrier(s.files, Written(plan).value, id)
      && exists m :: Carrier(s.files, m, id) && SlotAt(s.files, m) == SlotOf(payload)
  {
    var current := Snapshot(s.files, LabelOf(payload), orders.check).value;
    FindFinds(s.files, orders.check, current.id);
    PathFinds(s.files, orders.plan, current.id);
    var found := FindEquipment(s.files, orders.check, current.id).value;
    assert current.slot == Worn(found) && OneOf(current.slot, SLOTS);
    var m :| m in orders.check && found == Some(s.files[Equipment(m)]);
    assert Carrier(s.files, m, current.id);
  }

  /** Rewriting one file with the id and the slot it has anyway changes no slot. */
  lemma RewriteKeepsSlots(before: Files, after: Files, w: string, mine: int, id: int)
    requires Carrier(before, w, mine) && Carrier(after, w, mine)
      && (id == mine ==> SlotAt(after, w) == SlotAt(before, w))
    requires forall n :: n != w ==> At(after, Equipment(n)) == At(before, Equipment(n))
    ensures SlotsKept(before, after, id)
  {
    forall n | n != w ensures (Equipment(n) in before <==> Equipment(n) in after)
      && SlotAt(before, n) == SlotAt(after, n) {
      assert At(after, Equipment(n)) == At(before, Equipment(n));
    }
  }

  lemma SaveKeepsSlots(s: Store, op: Op, id: int)
    requires op.SaveOp? && Lists(s.files, op.orders.check) && Lists(s.files, op.orders.plan) && Unambiguous(s.files, id)
    ensures SlotsKept(s.files, Apply(s, op).files, id)
  {
    if Apply(s, op) != s {
      SaveParts(s, op);
      var mine := Snapshot(s.files, LabelOf(op.payload), op.orders.check).value.id;
      var plan := Planned(s.files, op.payload, mine, op.orders.plan).value;
      WrittenEquipment(s.files, op.payload, mine, op.orders.plan, false);
      PublishedEquipment(s.files, LabelOf(op.payload), mine, plan);
      var after := Apply(s, op).files;
      if ForEquipment(op.payload) {
        SaveWrites(s, op);
        var w := Written(plan).value;
        var m :| Carrier(s.files, m, mine) && SlotAt(s.files, m) == SlotOf(op.payload);
        assert id == mine ==> SlotAt(s.files, w) == SlotAt(s.files, m);
        RewriteKeepsSlots(s.files, after, w, mine, id);
      }
    }
  }

  lemma PublishedEquipment(files: Files, tag: string, id: int, plan: Plan)
    ensures forall n :: Some(n) != Written(plan) ==>
      At(Published(files, tag, id, plan), Equipment(n)) == At(files, Equipment(n))
  {
  }

  lemma {:induction false} SavesKeepSlots(s: Store, ops: seq<Op>, id: int)
    requires Saves(s, ops) && Unambiguous(s.files, id)
    ensures SlotsKept(s.files, ApplyAll(s, ops).files, id)
    decreases |ops|
  {
    if ops != [] {
      SaveKeepsSlots(s, ops[0], id);
      var next := Apply(s, ops[0]);
      assert Unambiguous(next.files, id);
      SavesKeepSlots(next, ops[1..], id);
    }
  }

  /** Two readings of the slot, where neither raises. */
  predicate SameReading(a: Result<Option<File>>, b: Result<Option<File>>) {
    a.Ok? && b.Ok? ==> Worn(a.value) == Worn(b.value)
  }

  lemma KeptReading(before: Files, after: Files, id: int, o1: seq<string>, o2: seq<string>)
    requires Unambiguous(before, id) && SlotsKept(before, after, id) && Lists(before, o1) && Lists(after, o2)
    ensures SameReading(FindEquipment(before, o1, id), FindEquipment(after, o2, id))
  {
    FindFinds(before, o1, id);
    FindFinds(after, o2, id);
    var a, b := FindEquipment(before, o1, id), FindEquipment(after, o2, id);
    if a.Ok? && b.Ok? {
      if a.value.Some? {
        var m :| m in o1 && a.value == Some(before[Equipment(m)]) && Carries(before[Equipment(m)], id);
        assert Carrier(before, m, id) && Carrier(after, m, id);
        if b.value.Some? {
          var n :| n in o2 && b.value == Some(after[Equipment(n)]) && Carries(after[Equipment(n)], id);
          assert Carrier(after, n, id);
        }
      }
    }
  }

  /** Whatever run of saves lies between two readings of the item's slot, they agree. */
  ghost predicate SlotFixed(s: Store, id: int) {
    forall ops, o1, o2 :: Saves(s, ops) && Lists(s.files, o1) && Lists(ApplyAll(s, ops).files, o2) ==>
      SameReading(FindEquipment(s.files, o1, id), FindEquipment(ApplyAll(s, ops).files, o2, id))
  }

  /** The slot stays fixed over every run of saves if and only if all files that carry the id name one slot. */
  lemma SlotFixedIff(s: Store, id: int, order: seq<string>)
    requires Lists(s.files, order)
    ensures SlotFixed(s, id) <==> Unambiguous(s.files, id)
  {
    if Unambiguous(s.files, id) {
      forall ops, o1, o2 | Saves(s, ops) && Lists(s.files, o1) && Lists(ApplyAll(s, ops).files, o2)
        ensures SameReading(FindEquipment(s.files, o1, id), FindEquipment(ApplyAll(s, ops).files, o2, id))
      {
        SavesKeepSlots(s, ops, id);
        KeptReading(s.files, ApplyAll(s, ops).files, id, o1, o2);
      }
    } else {
      var m, n :| Carrier(s.files, m, id) && Carrier(s.files, n, id) && SlotAt(s.files, m) != SlotAt(s.files, n);
      var o1 := ToFront(s.files, order, m);
      var o2 := ToFront(s.files, order, n);
      assert Saves(s, []) && ApplyAll(s, []) == s;
      assert !SameReading(FindEquipment(s.files, o1, id), FindEquipment(ApplyAll(s, []).files, o2, id));
    }
  }

  function SlotFile(id: int, slot: string): File { Doc(map["id" := Int(id), "equipment_slot" := Str(slot)]) }

  /** Two files of one id: whichever the directory lists first decides, so the slot can change without any save. */
  function TwoSlots(id: int, registry: Catalog.Registry): Store {
    Store(map[Equipment("a") := SlotFile(id, "boots"), Equipment("b") := SlotFile(id, "gloves")], registry)
  }

  lemma TwoSlotsNotFixed(id: int, registry: Catalog.Registry)
    ensures Lists(TwoSlots(id, registry).files, ["a", "b"])
    ensures !SlotFixed(TwoSlots(id, registry), id)
  {
    var s := TwoSlots(id, registry);
    FieldNames();
    assert "boots"[0] != "gloves"[0] && "a"[0] != "b"[0];
    assert Carrier(s.files, "a", id) && Carrier(s.files, "b", id);
    assert SlotAt(s.files, "a") == Str("boots") && SlotAt(s.files, "b") == Str("gloves");
    SlotFixedIff(s, id, ["a", "b"]);
  }
}
