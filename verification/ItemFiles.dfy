/**
 The four files of an item in `tools/item_lab/server.py`: what a create or a save plans to write
 (`planned_item_files`), how an item is read back (`snapshot_item`), and the two commits. Files hold parsed JSON.
 A commit's publish is one step here; `ItemDurability` proves that the file steps of the journal amount to that.
 */
module ItemFiles {
  import opened Basics
  import opened Names
  import opened NpcDocument
  import Catalog
  import NpcSelection

  type Fields = map<string, Json>

  /** Where a file lies: the four directories of `items_dir`, `presentation_dir`, `equipment_dir`, `notes_dir`. */
  datatype Path = Items(name: string) | Presentation(name: string) | Equipment(name: string) | Notes(name: string)

  /** A JSON object, or a file that is not UTF-8, not JSON, or JSON but no object. */
  datatype File = Doc(fields: Fields) | NotText | NotJson | NotDict

  type Files = map<Path, File>

  datatype Error = Rejected | Conflict | Broken | InvalidPack | Registry(error: Catalog.Error)

  datatype Result<+T> = Ok(value: T) | Err(error: Error)

  // Python values.

  function Field(fields: Fields, key: string, default: Json): Json { Get(Obj(fields), key, default) }

  predicate Truthy(v: Json) { NpcSelection.Truthy(v) }

  /** `v or other` */
  function Or(v: Json, other: Json): Json { if Truthy(v) then v else other }

  function Number(v: Json): Option<real> {
    match v
    case Int(n) => Some(n as real)
    case Float(x) => Some(x)
    case Bool(b) => Some(if b then 1.0 else 0.0)
    case _ => None
  }

  /** `a == b`: numbers and booleans by value, everything else by structure. */
  predicate Same(a: Json, b: Json)
    decreases a
  {
    if Number(a).Some? && Number(b).Some? then Number(a) == Number(b)
    else if a.Arr? && b.Arr? then
      |a.items| == |b.items| && forall i :: 0 <= i < |a.items| ==> Same(a.items[i], b.items[i])
    else if a.Obj? && b.Obj? then
      a.fields.Keys == b.fields.Keys && forall k :: k in a.fields ==> Same(a.fields[k], b.fields[k])
    else a == b
  }

  lemma {:induction false} SameRefl(v: Json)
    ensures Same(v, v)
  {
    if v.Arr? {
      forall i | 0 <= i < |v.items| ensures Same(v.items[i], v.items[i]) { SameRefl(v.items[i]); }
    } else if v.Obj? {
      forall k | k in v.fields ensures Same(v.fields[k], v.fields[k]) { SameRefl(v.fields[k]); }
    }
  }

  predicate EqualsInt(v: Json, n: int) { Same(v, Int(n)) }

  /** What `int` passes over at both ends of a text. */
  predicate IntSpace(c: char) { Space(c) || c as int == 0x85 }

  function Strip(s: string): string {
    if s != "" && IntSpace(s[0]) then Strip(s[1..])
    else if s != "" && IntSpace(s[|s| - 1]) then Strip(s[..|s| - 1])
    else s
  }

  predicate IsDigit(c: char) { '0' <= c <= '9' }

  /** Digits, with single underscores between them. */
  predicate Numeral(s: string) {
    && s != "" && IsDigit(s[0]) && IsDigit(s[|s| - 1])
    && forall i :: 0 <= i < |s| ==> IsDigit(s[i]) || (s[i] == '_' && i + 1 < |s| && IsDigit(s[i + 1]))
  }

  function ParseInt(text: string): Option<int> {
    var s := Strip(text);
    var body := if s != "" && (s[0] == '-' || s[0] == '+') then s[1..] else s;
    if !Numeral(body) then None
    else if s[0] == '-' then Some(-(Catalog.ParseRaw(body) as int))
    else Some(Catalog.ParseRaw(body))
  }

  /** `int(v)`; None is an exception. */
  function ToInt(v: Json): Option<int> {
    match v
    case Int(n) => Some(n)
    case Bool(b) => Some(if b then 1 else 0)
    case Float(x) => Some(if x >= 0.0 then x.Floor else -(-x).Floor)
    case Str(s) => ParseInt(s)
    case _ => None
  }

  function IntText(n: int): string { if n < 0 then "-" + Decimal(-n) else Decimal(n) }

  // Payloads.

  const CATEGORIES := ["equipment", "consumable", "material", "tool", "misc"]
  const SLOTS := ["headwear", "bodywear", "pants", "gloves", "boots", "weapon"]

  predicate KeyChar(c: char) { 'a' <= c <= 'z' || '0' <= c <= '9' || c == '.' || c == '_' || c == '-' }

  /** `[a-z0-9][a-z0-9._-]*` */
  predicate KeyText(s: string) {
    s != "" && ('a' <= s[0] <= 'z' || '0' <= s[0] <= '9') && forall i :: 0 <= i < |s| ==> KeyChar(s[i])
  }

  predicate Contains(s: string, token: string) { exists i :: 0 <= i <= |s| && token <= s[i..] }

  /** `str(icon)` is a visual key; a number may be one too. */
  predicate GoodIcon(v: Json) {
    match v
    case Str(s) => KeyText(s) && !Contains(s, ".png") && !Contains(s, ".jpg")
    case Int(n) => n >= 0
    case Float(x) => 0.0 <= x < 10000000000000000.0
    case _ => false
  }

  predicate GoodLabel(v: Json, creating: bool) {
    v.Str? &&
    (("item." <= v.s && KeyText(v.s[5..])) || (!creating && "equipment." <= v.s && KeyText(v.s[10..])))
  }

  predicate OneOf(v: Json, texts: seq<string>) { v.Str? && v.s in texts }

  function StackOf(payload: Fields): int {
    var n := ToInt(Field(payload, "stack_limit", Null));
    if n.Some? then n.value else 0
  }

  predicate ForEquipment(payload: Fields) { Field(payload, "category", Null) == Str("equipment") }

  function SlotOf(fields: Fields): Json { Field(fields, "equipment_slot", Null) }

  /** `validate_payload` reports nothing. */
  predicate ValidPayload(payload: Fields, creating: bool) {
    && GoodLabel(Field(payload, "label", Str("")), creating)
    && OneOf(Field(payload, "category", Null), CATEGORIES)
    && StackOf(payload) >= 1
    && (ForEquipment(payload) ==> StackOf(payload) == 1)
    && GoodIcon(Field(payload, "icon", Str("")))
    && (ForEquipment(payload) ==> OneOf(SlotOf(payload), SLOTS))
    && (creating && !ForEquipment(payload) ==> !Truthy(SlotOf(payload)))
  }

  predicate Labelled(payload: Fields) { Field(payload, "label", Str("")).Str? }

  function LabelOf(payload: Fields): string
    requires Labelled(payload)
  {
    Field(payload, "label", Str("")).s
  }

  // Reading an item.

  /** The four files as they were read: the gameplay, presentation, equipment and notes file. */
  type Revision = seq<Option<File>>

  datatype Item = Item(
    id: int, tag: Json, category: Json, stackLimit: Json, confirm: bool, displayName: Json, description: Json,
    icon: Json, slot: Json, notes: Json, tags: Json, revision: Revision)

  function At(files: Files, path: Path): Option<File> { if path in files then Some(files[path]) else None }

  predicate Carries(f: File, id: int) { f.Doc? && EqualsInt(Field(f.fields, "id", Null), id) }

  /** `order` lists the equipment directory, in whatever order the file system gives. */
  ghost predicate Lists(files: Files, order: seq<string>) {
    (forall n :: n in order <==> Equipment(n) in files)
      && (forall i, j :: 0 <= i < j < |order| ==> order[i] != order[j])
  }

  /** The equipment loop of `snapshot_item`: unreadable files are passed over, a non-object raises. */
  function FindEquipment(files: Files, order: seq<string>, id: int): Result<Option<File>>
    decreases |order|
  {
    if order == [] then Ok(None)
    else
      var f := At(files, Equipment(order[0]));
      if f == Some(NotDict) then Err(Broken)
      else if f.Some? && Carries(f.value, id) then Ok(f)
      else FindEquipment(files, order[1..], id)
  }

  /** `equipment_path`: the same search, except that a file that is not UTF-8 raises too. */
  function EquipmentPath(files: Files, order: seq<string>, id: int): Result<Option<string>>
    decreases |order|
  {
    if order == [] then Ok(None)
    else
      var f := At(files, Equipment(order[0]));
      if f == Some(NotDict) || f == Some(NotText) then Err(Broken)
      else if f.Some? && Carries(f.value, id) then Ok(Some(order[0]))
      else EquipmentPath(files, order[1..], id)
  }

  /** `_read_optional` */
  function Optional(f: Option<File>): Result<Fields> {
    if f.None? then Ok(map[]) else if f.value.Doc? then Ok(f.value.fields) else Err(Broken)
  }

  /** The parsed `id` of a gameplay file, `int(doc["id"])`. */
  function StoredId(fields: Fields): Option<int> { ToInt(Field(fields, "id", Null)) }

  /** `snapshot_item` */
  function Snapshot(files: Files, tag: string, order: seq<string>): Result<Item> {
    var gameplay := At(files, Items(tag));
    if gameplay.None? || !gameplay.value.Doc? then Err(Broken)
    else
      var doc := gameplay.value.fields;
      var id := StoredId(doc);
      var presented := At(files, Presentation(tag));
      if id.None? || Optional(presented).Err? then Err(Broken)
      else
        var equipment := FindEquipment(files, order, id.value);
        var noted := At(files, Notes(IntText(id.value)));
        if equipment.Err? || Optional(noted).Err? then Err(Broken)
        else
          var p, n := Optional(presented).value, Optional(noted).value;
          Ok(Item(
            id.value, Field(doc, "label", Str("")), Field(doc, "category", Str("")), Field(doc, "stack_limit", Int(1)),
            Truthy(Field(doc, "drop_requires_confirmation", Bool(false))),
            Field(p, "display_name", Str("")), Field(p, "description", Str("")), Field(p, "icon", Str("")),
            Worn(equipment.value), Field(n, "notes", Str("")), Field(n, "tags", Arr([])),
            [gameplay, presented, equipment.value, noted]))
  }

  function Worn(equipment: Option<File>): Json {
    if equipment.Some? && equipment.value.Doc? then SlotOf(equipment.value.fields) else Null
  }

  // Planning the files of an item.

  datatype Plan = Plan(gameplay: Fields, presentation: Fields, equipment: Option<(string, Fields)>, notes: Fields)

  /** `_merged`: the updates win over what the file holds; a file that cannot be updated raises. */
  function Merged(f: Option<File>, updates: Fields): Result<Fields> {
    if f.None? then Ok(updates) else if f.value.Doc? then Ok(f.value.fields + updates) else Err(Broken)
  }

  function GameplayUpdate(payload: Fields, id: int): Fields
    requires Labelled(payload)
  {
    map[
      "schema_version" := Int(3), "id" := Int(id), "label" := Str(LabelOf(payload)),
      "category" := Field(payload, "category", Null), "stack_limit" := Int(StackOf(payload)),
      "drop_requires_confirmation" := Bool(Truthy(Field(payload, "drop_requires_confirmation", Bool(false))))]
  }

  function PresentationUpdate(payload: Fields, id: int): Fields
    requires Labelled(payload)
  {
    map[
      "schema_version" := Int(2), "id" := Int(id), "label" := Str(LabelOf(payload)),
      "icon" := Field(payload, "icon", Str("")), "display_name" := Field(payload, "display_name", Str("")),
      "description" := Field(payload, "description", Str(""))]
  }

  function EquipmentUpdate(payload: Fields, id: int): Fields
    requires Labelled(payload)
  {
    map["schema_version" := Int(2), "id" := Int(id), "label" := Str(LabelOf(payload)),
      "equipment_slot" := SlotOf(payload)]
  }

  function NotesFile(payload: Fields): Fields {
    map["notes" := Field(payload, "notes", Str("")), "tags" := Or(Field(payload, "tags", Null), Arr([]))]
  }

  /** The equipment part of the plan: the file that carries the id, or else one named after the label. */
  function PlanEquipment(files: Files, payload: Fields, id: int, order: seq<string>): Result<Option<(string, Fields)>>
    requires Labelled(payload)
  {
    if !ForEquipment(payload) then Ok(None)
    else
      var found := EquipmentPath(files, order, id);
      if found.Err? then Err(found.error)
      else
        var name := if found.value.Some? then found.value.value else LabelOf(payload);
        var fields := Merged(At(files, Equipment(name)), EquipmentUpdate(payload, id));
        if fields.Err? then Err(fields.error) else Ok(Some((name, fields.value)))
  }

  /** `planned_item_files` */
  function Planned(files: Files, payload: Fields, id: int, order: seq<string>): Result<Plan>
    requires Labelled(payload)
  {
    var tag := LabelOf(payload);
    var gameplay := Merged(At(files, Items(tag)), GameplayUpdate(payload, id));
    var presentation := Merged(At(files, Presentation(tag)), PresentationUpdate(payload, id));
    var equipment := PlanEquipment(files, payload, id, order);
    if gameplay.Err? || presentation.Err? || equipment.Err? then Err(Broken)
    else Ok(Plan(gameplay.value, presentation.value, equipment.value, NotesFile(payload)))
  }

  /** The files once the plan is published. */
  function Published(files: Files, tag: string, id: int, plan: Plan): Files {
    var three := files[Items(tag) := Doc(plan.gameplay)][Presentation(tag) := Doc(plan.presentation)]
                      [Notes(IntText(id)) := Doc(plan.notes)];
    if plan.equipment.None? then three else three[Equipment(plan.equipment.value.0) := Doc(plan.equipment.value.1)]
  }

  // Comparing with a draft.

  /** `list(v)`: the elements of a list or the characters of a string, or the keys of an object. */
  datatype Listed = Elements(items: seq<Json>) | Keys(names: set<string>)

  function ListOf(v: Json): Option<Listed> {
    match v
    case Arr(items) => Some(Elements(items))
    case Str(s) => Some(Elements(seq(|s|, i requires 0 <= i < |s| => Str([s[i]]))))
    case Obj(fields) => Some(Keys(fields.Keys))
    case _ => None
  }

  predicate AreKeys(items: seq<Json>, names: set<string>) {
    |items| == |names| && (forall v :: v in items ==> v.Str? && v.s in names)
      && (forall n :: n in names ==> Str(n) in items)
  }

  predicate SameListed(a: Listed, b: Listed) {
    match (a, b)
    case (Elements(x), Elements(y)) => Same(Arr(x), Arr(y))
    case (Keys(x), Keys(y)) => x == y
    case (Elements(x), Keys(y)) => AreKeys(x, y)
    case (Keys(x), Elements(y)) => AreKeys(y, x)
  }

  /** The tags as the code lists them. */
  function Tags(v: Json): Option<Listed> { ListOf(Or(v, Arr([]))) }

  /** `_same_draft`, comparing in the same order and raising where it raises. */
  function SameDraft(current: Item, payload: Fields): Result<bool> {
    var mine, theirs := ToInt(current.stackLimit), ToInt(Field(payload, "stack_limit", Int(0)));
    if !Same(current.category, Field(payload, "category", Null)) then Ok(false)
    else if mine.None? || theirs.None? then Err(Broken)
    else if mine != theirs
      || !Same(Or(current.displayName, Str("")), Or(Field(payload, "display_name", Null), Str("")))
      || !Same(Or(current.description, Str("")), Or(Field(payload, "description", Null), Str("")))
      || !Same(current.icon, Field(payload, "icon", Null))
      || !Same(Or(current.notes, Str("")), Or(Field(payload, "notes", Null), Str("")))
    then Ok(false)
    else
      var tags, drafted := Tags(current.tags), Tags(Field(payload, "tags", Null));
      if tags.None? || drafted.None? then Err(Broken)
      else Ok(
        && SameListed(tags.value, drafted.value)
        && current.confirm == Truthy(Field(payload, "drop_requires_confirmation", Bool(false)))
        && Same(Or(current.slot, Null), Or(SlotOf(payload), Null)))
  }

  // Commits.

  datatype Store = Store(files: Files, registry: Catalog.Registry)

  datatype Reply = Reply(id: int, item: Item, idempotent: bool)

  datatype Outcome = Outcome(store: Store, result: Result<Reply>)

  /** The directory orders one commit meets: at its check, at its plan and at its final read. */
  datatype Orders = Orders(check: seq<string>, plan: seq<string>, read: seq<string>)

  function Replied(item: Result<Item>, idempotent: bool): Result<Reply> {
    if item.Err? then Err(item.error) else Ok(Reply(item.value.id, item.value, idempotent))
  }

  /** `commit_item_create` under the lock, `valid` being the answer of `validate_pack`. */
  function CommitCreate(s: Store, payload: Fields, orders: Orders, valid: bool): Outcome {
    if !ValidPayload(payload, true) then Outcome(s, Err(Rejected))
    else
      var tag := LabelOf(payload);
      if Items(tag) in s.files then
        var current := Snapshot(s.files, tag, orders.check);
        if current.Err? then Outcome(s, Err(current.error))
        else
          var same := SameDraft(current.value, payload);
          if same.Err? then Outcome(s, Err(same.error))
          else if same.value then Outcome(s, Replied(current, true))
          else Outcome(s, Err(Conflict))
      else
        var created := Catalog.Create(s.registry, tag);
        if created.Err? then Outcome(s, Err(Registry(created.error)))
        else
          var id := created.value.id;
          var plan := Planned(s.files, payload, id, orders.plan);
          if plan.Err? then Outcome(s, Err(plan.error))
          else if !valid then Outcome(s, Err(InvalidPack))
          else
            var files := Published(s.files, tag, id, plan.value);
            Outcome(Store(files, created.value.registry), Replied(Snapshot(files, tag, orders.read), false))
  }

  /** The `content_id` a client may send along: absent or empty, or it must be the stored id. */
  predicate SuppliedFits(supplied: Json, id: int) {
    supplied == Null || supplied == Str("") || ToInt(supplied) == Some(id)
  }

  /** The catalog either does not know the label or gives it the stored id. */
  predicate CatalogFits(registry: Catalog.Registry, tag: string, id: int) {
    match Catalog.ContentIdOf(registry.catalog, tag)
    case NotRegistered => true
    case ConstantMissing(_) => false
    case Registered(mapped) => mapped == id
  }

  /** The guards of `commit_item_save`, in order. */
  function SaveCheck(s: Store, payload: Fields, revision: Revision, current: Item): Option<Error>
    requires ValidPayload(payload, false)
  {
    if current.tag != Str(LabelOf(payload)) || !CatalogFits(s.registry, LabelOf(payload), current.id)
      || !SuppliedFits(Field(payload, "content_id", Null), current.id) then Some(Rejected)
    else if revision != current.revision then Some(Conflict)
    else if Field(payload, "category", Null) != current.category then Some(Rejected)
    else if ToInt(current.stackLimit).None? then Some(Broken)
    else if StackOf(payload) < ToInt(current.stackLimit).value then Some(Rejected)
    else if ForEquipment(payload) && SlotOf(payload) != current.slot then Some(Rejected)
    else None
  }

  /** `commit_item_save` under the lock. */
  function CommitSave(s: Store, payload: Fields, revision: Revision, orders: Orders, valid: bool): Outcome {
    if !ValidPayload(payload, false) then Outcome(s, Err(Rejected))
    else
      var tag := LabelOf(payload);
      if Items(tag) !in s.files then Outcome(s, Err(Rejected))
      else
        var current := Snapshot(s.files, tag, orders.check);
        if current.Err? then Outcome(s, Err(current.error))
        else
          var refused := SaveCheck(s, payload, revision, current.value);
          if refused.Some? then Outcome(s, Err(refused.value))
          else
            var id := current.value.id;
            var plan := Planned(s.files, payload, id, orders.plan);
            if plan.Err? then Outcome(s, Err(plan.error))
            else if !valid then Outcome(s, Err(InvalidPack))
            else
              var files := Published(s.files, tag, id, plan.value);
              Outcome(s.(files := files), Replied(Snapshot(files, tag, orders.read), false))
  }
}
