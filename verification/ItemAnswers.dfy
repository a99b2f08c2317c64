/** What a create and a save of an item answer, and what they write, told on the fields of the payload and the files. */
module ItemAnswers {
  import opened Basics
  import opened NpcDocument
  import opened ItemFiles
  import opened ItemTheorems
  import Catalog

  // Python's equality, truth and `int`.

  /** The value with every number and truth value as a real number. */
  function Plain(v: Json): Json
    decreases v
  {
    match v
    case Int(n) => Float(n as real)
    case Bool(b) => Float(if b then 1.0 else 0.0)
    case Arr(items) => Arr(seq(|items|, i requires 0 <= i < |items| => Plain(items[i])))
    case Obj(fields) => Obj(map k | k in fields :: Plain(fields[k]))
    case _ => v
  }

  /** `==` compares numbers and truth values as numbers and everything else by structure. */
  lemma {:induction false} SameIsPlainEquality(a: Json, b: Json)
    ensures Same(a, b) <==> Plain(a) == Plain(b)
    decreases a
  {
    if a.Arr? && b.Arr? {
      if |a.items| == |b.items| {
        forall i | 0 <= i < |a.items| ensures Same(a.items[i], b.items[i]) <==> Plain(a.items[i]) == Plain(b.items[i]) {
          SameIsPlainEquality(a.items[i], b.items[i]);
        }
        SequencesAgree(a.items, b.items);
      } else {
        assert |Plain(a).items| != |Plain(b).items|;
      }
    } else if a.Obj? && b.Obj? {
      forall k | k in a.fields && k in b.fields
        ensures Same(a.fields[k], b.fields[k]) <==> Plain(a.fields[k]) == Plain(b.fields[k])
      {
        SameIsPlainEquality(a.fields[k], b.fields[k]);
      }
      MapsAgree(a.fields, b.fields);
    }
  }

  lemma SequencesAgree(a: seq<Json>, b: seq<Json>)
    requires |a| == |b|
    ensures Plain(Arr(a)) == Plain(Arr(b)) <==> forall i :: 0 <= i < |a| ==> Plain(a[i]) == Plain(b[i])
  {
    var x, y := Plain(Arr(a)).items, Plain(Arr(b)).items;
    forall i | 0 <= i < |a| ensures x[i] == Plain(a[i]) && y[i] == Plain(b[i]) {}
    if forall i :: 0 <= i < |a| ==> Plain(a[i]) == Plain(b[i]) { assert x == y; }
  }

  lemma MapsAgree(a: map<string, Json>, b: map<string, Json>)
    ensures Plain(Obj(a)) == Plain(Obj(b)) <==>
      a.Keys == b.Keys && forall k :: k in a && k in b ==> Plain(a[k]) == Plain(b[k])
  {
    var x, y := Plain(Obj(a)).fields, Plain(Obj(b)).fields;
    assert x.Keys == a.Keys && y.Keys == b.Keys;
    forall k ensures (k in a ==> x[k] == Plain(a[k])) && (k in b ==> y[k] == Plain(b[k])) {}
    if a.Keys == b.Keys && forall k :: k in a && k in b ==> Plain(a[k]) == Plain(b[k]) { assert x == y; }
  }

  /** Null, false, zero and what is empty are falsy, and nothing else is. */
  lemma FalsyValues(v: Json)
    ensures !Truthy(v) <==>
      v == Null || v == Bool(false) || v == Int(0) || v == Float(0.0) || v == Str("") || v == Arr([]) || v == Obj(map[])
  {
  }

  lemma SameTruth(a: Json, b: Json)
    requires Same(a, b)
    ensures Truthy(a) == Truthy(b)
  {
    if a.Obj? && b.Obj? {
      assert a.fields == map[] <==> a.fields.Keys == {};
      assert b.fields == map[] <==> b.fields.Keys == {};
    }
  }

  /** The two values are equal, or both count as absent. */
  predicate Agree(a: Json, b: Json) { if Truthy(a) then Truthy(b) && Same(a, b) else !Truthy(b) }

  lemma OrAgrees(a: Json, b: Json, absent: Json)
    requires !Truthy(absent)
    ensures Same(Or(a, absent), Or(b, absent)) <==> Agree(a, b)
  {
    SameRefl(absent);
    if Same(Or(a, absent), Or(b, absent)) { SameTruth(Or(a, absent), Or(b, absent)); }
  }

  /** `int` cuts a number off towards zero, and reads back what `str` writes of a whole one. */
  lemma WholeNumbers(x: real, n: int, b: bool)
    ensures ToInt(Int(n)) == Some(n) && ToInt(Bool(b)) == Some(if b then 1 else 0)
    ensures ToInt(Float(x)).Some?
    ensures var k := ToInt(Float(x)).value as real; if x >= 0.0 then k <= x < k + 1.0 else k - 1.0 < x <= k
    ensures ToInt(Null).None? && ToInt(Arr([])).None? && ToInt(Obj(map[])).None? && ToInt(Str("")).None?
  {
    assert Strip("") == "";
  }

  // Tags.

  /** What `list` makes of the tags when it is not an error; the keys of an object have no order here. */
  predicate Listable(v: Json) { !Truthy(v) || v.Arr? || v.Str? || v.Obj? }

  function Letters(s: string): seq<Json> { seq(|s|, i requires 0 <= i < |s| => Str([s[i]])) }

  /** The tags as a list, if they are no object. */
  function Listing(v: Json): seq<Json> {
    if !Truthy(v) then [] else if v.Arr? then v.items else if v.Str? then Letters(v.s) else []
  }

  /** The list names each of the keys once and nothing else. */
  predicate NamesKeys(items: seq<Json>, keys: set<string>) {
    |items| == |keys| && (forall v :: v in items ==> v.Str? && v.s in keys) && forall k :: k in keys ==> Str(k) in items
  }

  predicate TagsAgree(a: Json, b: Json) {
    if Truthy(a) && a.Obj? then
      if Truthy(b) && b.Obj? then a.fields.Keys == b.fields.Keys else NamesKeys(Listing(b), a.fields.Keys)
    else if Truthy(b) && b.Obj? then NamesKeys(Listing(a), b.fields.Keys)
    else
      |Listing(a)| == |Listing(b)| && forall i :: 0 <= i < |Listing(a)| ==> Same(Listing(a)[i], Listing(b)[i])
  }

  lemma TagsAreListable(a: Json)
    ensures Tags(a).Some? <==> Listable(a)
    ensures Tags(a).Some? ==>
      Tags(a).value == if Truthy(a) && a.Obj? then Keys(a.fields.Keys) else Elements(Listing(a))
  {
  }

  lemma TagsAre(a: Json, b: Json)
    requires Tags(a).Some? && Tags(b).Some?
    ensures SameListed(Tags(a).value, Tags(b).value) <==> TagsAgree(a, b)
  {
    TagsAreListable(a);
    TagsAreListable(b);
  }

  // Comparing with a stored item.

  function Named(payload: Fields, key: string): Json { if key in payload then payload[key] else Null }

  /** Category, stack limit and texts agree. */
  predicate FirstAgree(item: Item, payload: Fields) {
    && Same(item.category, Named(payload, "category"))
    && ToInt(item.stackLimit).Some? && ToInt(item.stackLimit) == ToInt(StackGiven(payload))
    && Agree(item.displayName, Named(payload, "display_name")) && Agree(item.description, Named(payload, "description"))
    && Same(item.icon, Named(payload, "icon")) && Agree(item.notes, Named(payload, "notes"))
  }

  function StackGiven(payload: Fields): Json { if "stack_limit" in payload then payload["stack_limit"] else Int(0) }

  /** Tags, confirmation and slot agree. */
  predicate LastAgree(item: Item, payload: Fields) {
    && TagsAgree(item.tags, Named(payload, "tags"))
    && (item.confirm <==> Truthy(Named(payload, "drop_requires_confirmation")))
    && Agree(item.slot, Named(payload, "equipment_slot"))
  }

  /** The comparison meets a stack limit that is no number, or tags that cannot be listed. */
  predicate Raises(item: Item, payload: Fields) {
    && Same(item.category, Named(payload, "category"))
    && (ToInt(item.stackLimit).None? || ToInt(StackGiven(payload)).None?
        || (FirstAgree(item, payload) && !(Listable(item.tags) && Listable(Named(payload, "tags")))))
  }

  lemma Absent()
    ensures !Truthy(Str("")) && !Truthy(Null) && !Truthy(Arr([]))
  {
  }

  lemma FirstCompared(item: Item, payload: Fields)
    requires Same(item.category, Named(payload, "category"))
    requires ToInt(item.stackLimit).Some? && ToInt(StackGiven(payload)).Some?
    ensures FirstAgree(item, payload) <==>
      !(ToInt(item.stackLimit) != ToInt(Field(payload, "stack_limit", Int(0)))
        || !Same(Or(item.displayName, Str("")), Or(Field(payload, "display_name", Null), Str("")))
        || !Same(Or(item.description, Str("")), Or(Field(payload, "description", Null), Str("")))
        || !Same(item.icon, Field(payload, "icon", Null))
        || !Same(Or(item.notes, Str("")), Or(Field(payload, "notes", Null), Str(""))))
  {
    Absent();
    OrAgrees(item.displayName, Named(payload, "display_name"), Str(""));
    OrAgrees(item.description, Named(payload, "description"), Str(""));
    OrAgrees(item.notes, Named(payload, "notes"), Str(""));
  }

  /** The comparison is true exactly when all nine fields agree, and raises exactly at what it cannot read. */
  lemma SameDraftIff(item: Item, payload: Fields)
    ensures SameDraft(item, payload) ==
      if Raises(item, payload) then Err(Broken) else Ok(FirstAgree(item, payload) && LastAgree(item, payload))
  {
    if Same(item.category, Named(payload, "category"))
      && ToInt(item.stackLimit).Some? && ToInt(StackGiven(payload)).Some?
    {
      FirstCompared(item, payload);
      Absent();
      TagsAreListable(item.tags);
      TagsAreListable(Named(payload, "tags"));
      if Listable(item.tags) && Listable(Named(payload, "tags")) { TagsAre(item.tags, Named(payload, "tags")); }
      OrAgrees(item.slot, Named(payload, "equipment_slot"), Null);
    }
  }

  /**
   A create for a label on file writes nothing. If the item can be read, it is answered as a repeat, with the item on
   file, exactly when all fields of the draft agree with it; a draft that differs in any of them is a conflict, unless
   the comparison raises.
   */
  lemma RepeatAnswers(s: Store, payload: Fields, orders: Orders, valid: bool)
    requires Rules(payload, true) && Items(LabelOf(payload)) in s.files
    ensures var read := Snapshot(s.files, LabelOf(payload), orders.check);
      var answer := CommitCreate(s, payload, orders, valid);
      && answer.store == s
      && match read
         case Err(e) => answer.result == Err(e)
         case Ok(item) =>
           answer.result ==
           if Raises(item, payload) then Err(Broken)
           else if FirstAgree(item, payload) && LastAgree(item, payload) then Ok(Reply(item.id, item, true))
           else Err(Conflict)
  {
    ValidIffRules(payload, true);
    var read := Snapshot(s.files, LabelOf(payload), orders.check);
    if read.Ok? { SameDraftIff(read.value, payload); }
  }

  // What a payload must be.

  predicate Letter(c: char) { 'a' <= c <= 'z' || '0' <= c <= '9' }

  predicate IsKey(s: string) {
    && s != "" && Letter(s[0])
    && forall i :: 0 <= i < |s| ==> Letter(s[i]) || s[i] == '.' || s[i] == '_' || s[i] == '-'
  }

  /** The text occurs in the other at some place. */
  ghost predicate Occurs(part: string, s: string) { exists a, b :: OccursAs(part, s, a, b) }

  predicate OccursAs(part: string, s: string, a: string, b: string) { s == a + part + b }

  lemma FoundOccurs(s: string, part: string, i: nat)
    requires i <= |s| && part <= s[i..]
    ensures OccursAs(part, s, s[..i], s[i..][|part|..])
  {
    var rest := s[i..];
    assert rest == part + rest[|part|..];
    assert s == s[..i] + rest;
  }

  lemma OccursFound(s: string, part: string, a: string, b: string)
    requires OccursAs(part, s, a, b)
    ensures |a| <= |s| && part <= s[|a|..]
  {
    assert s[|a|..] == part + b;
  }

  lemma ContainsIsOccurs(s: string, part: string)
    ensures Contains(s, part) <==> Occurs(part, s)
  {
    if Contains(s, part) {
      var i :| 0 <= i <= |s| && part <= s[i..];
      FoundOccurs(s, part, i);
    }
    if Occurs(part, s) {
      var a, b :| OccursAs(part, s, a, b);
      OccursFound(s, part, a, b);
    }
  }

  /** An item's label is `item.` and a key; a save also takes the old `equipment.` labels. */
  ghost predicate LabelRule(v: Json, creating: bool) {
    v.Str? && exists key :: IsKey(key) && (v.s == "item." + key || (!creating && v.s == "equipment." + key))
  }

  /** A visual key that names no picture file; a number reads as one when its text has neither sign nor exponent. */
  ghost predicate IconRule(v: Json) {
    match v
    case Str(s) => IsKey(s) && !Occurs(".png", s) && !Occurs(".jpg", s)
    case Int(n) => n >= 0
    case Float(x) => 0.0 <= x < 10000000000000000.0
    case _ => false
  }

  ghost predicate Stacks(payload: Fields, least: int, most: Option<int>) {
    var n := ToInt(Named(payload, "stack_limit"));
    n.Some? && n.value >= least && (most.Some? ==> n.value <= most.value)
  }

  /** The rules for a payload, field by field. */
  ghost predicate Rules(payload: Fields, creating: bool) {
    var category, slot := Named(payload, "category"), Named(payload, "equipment_slot");
    && LabelRule(Named(payload, "label"), creating) && IconRule(Named(payload, "icon"))
    && (category == Str("equipment") || category == Str("consumable") || category == Str("material")
        || category == Str("tool") || category == Str("misc"))
    && (if category == Str("equipment") then
          Stacks(payload, 1, Some(1))
          && (slot == Str("headwear") || slot == Str("bodywear") || slot == Str("pants") || slot == Str("gloves")
              || slot == Str("boots") || slot == Str("weapon"))
        else Stacks(payload, 1, None) && (creating ==> !Truthy(slot)))
  }

  lemma LabelRuleIs(v: Json, creating: bool)
    ensures GoodLabel(v, creating) <==> LabelRule(v, creating)
  {
    if v.Str? {
      if "item." <= v.s { assert v.s == "item." + v.s[5..]; }
      if "equipment." <= v.s { assert v.s == "equipment." + v.s[10..]; }
      forall key | v.s == "item." + key ensures "item." <= v.s && v.s[5..] == key {}
      forall key | v.s == "equipment." + key ensures "equipment." <= v.s && v.s[10..] == key {}
    }
  }

  lemma CategoryIs(v: Json)
    ensures OneOf(v, CATEGORIES) <==>
      v == Str("equipment") || v == Str("consumable") || v == Str("material") || v == Str("tool") || v == Str("misc")
  {
  }

  lemma SlotIs(v: Json)
    ensures OneOf(v, SLOTS) <==>
      v == Str("headwear") || v == Str("bodywear") || v == Str("pants") || v == Str("gloves") || v == Str("boots")
      || v == Str("weapon")
  {
  }

  lemma IconRuleIs(v: Json)
    ensures GoodIcon(v) <==> IconRule(v)
  {
    if v.Str? {
      ContainsIsOccurs(v.s, ".png");
      ContainsIsOccurs(v.s, ".jpg");
    }
  }

  lemma EmptyIsNone(creating: bool)
    ensures !LabelRule(Str(""), creating) && !LabelRule(Null, creating) && !IconRule(Str("")) && !IconRule(Null)
  {
  }

  /** A payload is accepted exactly when it follows the rules. */
  lemma ValidIffRules(payload: Fields, creating: bool)
    ensures ValidPayload(payload, creating) <==> Rules(payload, creating)
  {
    EmptyIsNone(creating);
    LabelRuleIs(Field(payload, "label", Str("")), creating);
    IconRuleIs(Field(payload, "icon", Str("")));
    CategoryIs(Named(payload, "category"));
    SlotIs(Named(payload, "equipment_slot"));
  }

  // What a commit writes.

  /** The stored object with these fields written over it; what cannot be written over is no object. */
  ghost predicate WrittenOver(before: Option<File>, after: Option<File>, updates: Fields) {
    && after.Some? && after.value.Doc? && (before.Some? ==> before.value.Doc?)
    && (forall k :: k in updates ==> k in after.value.fields && after.value.fields[k] == updates[k])
    && (forall k :: k !in updates ==>
          (k in after.value.fields <==> before.Some? && k in before.value.fields)
          && (k in after.value.fields ==> after.value.fields[k] == before.value.fields[k]))
  }

  ghost predicate WritesGameplay(before: Files, after: Files, payload: Fields, id: int)
    requires Labelled(payload)
  {
    WrittenOver(At(before, Items(LabelOf(payload))), At(after, Items(LabelOf(payload))), map[
      "schema_version" := Int(3), "id" := Int(id), "label" := Named(payload, "label"),
      "category" := Named(payload, "category"), "stack_limit" := Int(StackOf(payload)),
      "drop_requires_confirmation" := Bool(Truthy(Named(payload, "drop_requires_confirmation")))])
  }

  function Text(payload: Fields, key: string): Json { if key in payload then payload[key] else Str("") }

  ghost predicate WritesPresentation(before: Files, after: Files, payload: Fields, id: int)
    requires Labelled(payload)
  {
    WrittenOver(At(before, Presentation(LabelOf(payload))), At(after, Presentation(LabelOf(payload))), map[
      "schema_version" := Int(2), "id" := Int(id), "label" := Named(payload, "label"), "icon" := Text(payload, "icon"),
      "display_name" := Text(payload, "display_name"), "description" := Text(payload, "description")])
  }

  ghost predicate WritesNotes(after: Files, payload: Fields, id: int) {
    At(after, Notes(IntText(id))) == Some(Doc(map[
      "notes" := Text(payload, "notes"),
      "tags" := if Truthy(Named(payload, "tags")) then payload["tags"] else Arr([])]))
  }

  /** Equipment goes to a file that carries the id, or to one named after the label when no listed file does. */
  ghost predicate WritesEquipment(before: Files, after: Files, payload: Fields, id: int, order: seq<string>,
      name: string)
    requires Labelled(payload)
  {
    && (if exists n :: n in order && Equipment(n) in before && Carries(before[Equipment(n)], id)
        then name in order && Equipment(name) in before && Carries(before[Equipment(name)], id)
        else name == LabelOf(payload))
    && WrittenOver(At(before, Equipment(name)), At(after, Equipment(name)), map[
        "schema_version" := Int(2), "id" := Int(id), "label" := Named(payload, "label"),
        "equipment_slot" := Named(payload, "equipment_slot")])
  }

  lemma {:induction false} PathIsCarrier(files: Files, order: seq<string>, id: int)
    requires EquipmentPath(files, order, id).Ok?
    ensures match EquipmentPath(files, order, id).value
      case Some(name) => name in order && Equipment(name) in files && Carries(files[Equipment(name)], id)
      case None => forall n :: n in order && Equipment(n) in files ==> !Carries(files[Equipment(n)], id)
    decreases |order|
  {
    if order != [] {
      var f := At(files, Equipment(order[0]));
      if !(f.Some? && Carries(f.value, id)) { PathIsCarrier(files, order[1..], id); }
    }
  }

  lemma LabelNamed(payload: Fields)
    requires LabelRule(Named(payload, "label"), true) || LabelRule(Named(payload, "label"), false)
    ensures Labelled(payload) && Named(payload, "label") == Str(LabelOf(payload))
  {
  }

  lemma MergedIs(f: Option<File>, updates: Fields)
    ensures Merged(f, updates).Ok? ==> WrittenOver(f, Some(Doc(Merged(f, updates).value)), updates)
  {
  }

  lemma WrittenItem(before: Files, payload: Fields, id: int, order: seq<string>, creating: bool)
    requires ValidPayload(payload, creating) && Planned(before, payload, id, order).Ok?
    ensures var after := Published(before, LabelOf(payload), id, Planned(before, payload, id, order).value);
      WritesGameplay(before, after, payload, id) && WritesPresentation(before, after, payload, id)
      && WritesNotes(after, payload, id)
  {
    ValidIffRules(payload, creating);
    LabelNamed(payload);
    var tag := LabelOf(payload);
    MergedIs(At(before, Items(tag)), GameplayUpdate(payload, id));
    MergedIs(At(before, Presentation(tag)), PresentationUpdate(payload, id));
    PublishedAt(before, tag, id, Planned(before, payload, id, order).value);
  }

  lemma WrittenSlot(before: Files, payload: Fields, id: int, order: seq<string>, creating: bool) returns (name: string)
    requires ValidPayload(payload, creating) && Planned(before, payload, id, order).Ok?
    requires Named(payload, "category") == Str("equipment")
    ensures var plan := Planned(before, payload, id, order).value;
      && plan.equipment.Some? && plan.equipment.value.0 == name
      && WritesEquipment(before, Published(before, LabelOf(payload), id, plan), payload, id, order, name)
  {
    ValidIffRules(payload, creating);
    LabelNamed(payload);
    var plan := Planned(before, payload, id, order).value;
    name := plan.equipment.value.0;
    PathIsCarrier(before, order, id);
    MergedIs(At(before, Equipment(name)), EquipmentUpdate(payload, id));
  }

  /** The path is one that a commit of this payload writes. */
  predicate IsWritten(payload: Fields, id: int, name: string, p: Path)
    requires Labelled(payload)
  {
    || p == Items(LabelOf(payload)) || p == Presentation(LabelOf(payload)) || p == Notes(IntText(id))
    || (Named(payload, "category") == Str("equipment") && p == Equipment(name))
  }

  /** A commit writes the gameplay, presentation and notes file, for equipment its slot file, and nothing else. */
  lemma PublishWrites(before: Files, payload: Fields, id: int, order: seq<string>, creating: bool)
    returns (name: string)
    requires ValidPayload(payload, creating) && Planned(before, payload, id, order).Ok?
    ensures var after := Published(before, LabelOf(payload), id, Planned(before, payload, id, order).value);
      && WritesGameplay(before, after, payload, id) && WritesPresentation(before, after, payload, id)
      && WritesNotes(after, payload, id)
      && (Named(payload, "category") == Str("equipment") ==> WritesEquipment(before, after, payload, id, order, name))
      && forall p :: !IsWritten(payload, id, name, p) ==> At(after, p) == At(before, p)
  {
    WrittenItem(before, payload, id, order, creating);
    name := "";
    if Named(payload, "category") == Str("equipment") { name := WrittenSlot(before, payload, id, order, creating); }
  }

  // What a save answers.

  /** What the client sent along for the id does not contradict the stored one. */
  predicate IdGiven(payload: Fields, id: int) {
    var given := Named(payload, "content_id");
    given == Null || given == Str("") || ToInt(given) == Some(id)
  }

  /** The stored item and the payload are about one item: label, catalog entry and the id sent along. */
  ghost predicate AboutItem(s: Store, payload: Fields, item: Item)
    requires Labelled(payload)
  {
    var mapped := Catalog.ContentIdOf(s.registry.catalog, LabelOf(payload));
    && item.tag == Named(payload, "label") && IdGiven(payload, item.id)
    && (mapped.NotRegistered? || (mapped.Registered? && mapped.id == item.id))
  }

  /** Nothing is changed that must not change, and nothing shrinks. */
  predicate KeepsPromises(payload: Fields, item: Item) {
    && item.category == Named(payload, "category")
    && ToInt(item.stackLimit).Some? && StackOf(payload) >= ToInt(item.stackLimit).value
    && (item.category == Str("equipment") ==> item.slot == Named(payload, "equipment_slot"))
  }

  /** What the guards of a save answer. */
  lemma GuardsAnswer(s: Store, payload: Fields, revision: Revision, item: Item)
    requires ValidPayload(payload, false) && Rules(payload, false)
    ensures SaveCheck(s, payload, revision, item) ==
      if !AboutItem(s, payload, item) then Some(Rejected)
      else if revision != item.revision then Some(Conflict)
      else if KeepsPromises(payload, item) then None
      else if item.category != Named(payload, "category") || ToInt(item.stackLimit).Some? then Some(Rejected)
      else Some(Broken)
  {
    LabelNamed(payload);
  }

  /**
   A save of an item that can be read goes to its files exactly when it is about that item, carries its revision and
   keeps its promises, its files can be planned and the pack is valid. Another revision is a conflict; nothing else is.
   */
  lemma SaveAnswers(s: Store, payload: Fields, revision: Revision, orders: Orders, valid: bool)
    requires Rules(payload, false) && Items(LabelOf(payload)) in s.files
    requires Snapshot(s.files, LabelOf(payload), orders.check).Ok?
    ensures var item := Snapshot(s.files, LabelOf(payload), orders.check).value;
      var plan := Planned(s.files, payload, item.id, orders.plan);
      var answer := CommitSave(s, payload, revision, orders, valid);
      var current := revision == item.revision;
      && answer.store == (
        if AboutItem(s, payload, item) && current && KeepsPromises(payload, item) && plan.Ok? && valid
        then Store(Published(s.files, LabelOf(payload), item.id, plan.value), s.registry) else s)
      && (answer.result == Err(Conflict) <==> AboutItem(s, payload, item) && !current)
      && (answer.result == Err(Rejected) <==>
           !AboutItem(s, payload, item)
           || (current && (item.category != Named(payload, "category")
                           || (ToInt(item.stackLimit).Some? && !KeepsPromises(payload, item)))))
      && (answer.result == Err(InvalidPack) <==>
           AboutItem(s, payload, item) && current && KeepsPromises(payload, item) && plan.Ok? && !valid)
  {
    ValidIffRules(payload, false);
    GuardsAnswer(s, payload, revision, Snapshot(s.files, LabelOf(payload), orders.check).value);
  }

  /** A save of a label without a file is rejected, one that breaks the rules too; an unreadable item is its error. */
  lemma SaveOfNothing(s: Store, payload: Fields, revision: Revision, orders: Orders, valid: bool)
    ensures !Rules(payload, false) || Items(LabelOf(payload)) !in s.files ==>
      CommitSave(s, payload, revision, orders, valid) == Outcome(s, Err(Rejected))
    ensures Rules(payload, false) && Items(LabelOf(payload)) in s.files ==>
      var read := Snapshot(s.files, LabelOf(payload), orders.check);
      read.Err? ==> CommitSave(s, payload, revision, orders, valid) == Outcome(s, Err(read.error))
  {
    ValidIffRules(payload, false);
  }

  /**
   A create for a new label takes the least unused id of both registry texts, and publishes when the registry has room
   for the label, the files can be planned and the pack is valid. Otherwise it changes nothing and says why.
   */
  lemma CreateAnswers(s: Store, payload: Fields, orders: Orders, valid: bool)
    ensures !Rules(payload, true) ==> CommitCreate(s, payload, orders, valid) == Outcome(s, Err(Rejected))
    ensures Rules(payload, true) && Items(LabelOf(payload)) !in s.files ==>
      var created := Catalog.Create(s.registry, LabelOf(payload));
      var answer := CommitCreate(s, payload, orders, valid);
      if created.Err? then answer == Outcome(s, Err(Registry(created.error)))
      else
        var id := created.value.id;
        var plan := Planned(s.files, payload, id, orders.plan);
        if plan.Err? || !valid then answer == Outcome(s, Err(if plan.Err? then plan.error else InvalidPack))
        else
          && answer.store == Store(Published(s.files, LabelOf(payload), id, plan.value), created.value.registry)
          && (answer.result.Ok? ==> answer.result.value.id == id && !answer.result.value.idempotent)
  {
    ValidIffRules(payload, true);
    if Rules(payload, true) && Items(LabelOf(payload)) !in s.files {
      var created := Catalog.Create(s.registry, LabelOf(payload));
      if created.Ok? && Planned(s.files, payload, created.value.id, orders.plan).Ok? {
        PlanReadsBack(s.files, payload, created.value.id, orders.plan, orders.read);
      }
    }
  }

  // What an item shows.

  /** The field of the file's object, or the default where there is no file or no such field. */
  function Shown(f: Option<File>, key: string, default: Json): Json {
    if f.Some? && f.value.Doc? && key in f.value.fields then f.value.fields[key] else default
  }

  predicate NoRaw(f: Option<File>) { f.Some? ==> f.value.Doc? }

  /**
   An item can be read when its gameplay file is an object whose id is a number, its other files are objects or absent,
   and the search for its equipment file does not raise. It shows the fields of its four files, with these defaults.
   */
  lemma SnapshotTells(files: Files, tag: string, order: seq<string>)
    ensures var g, p := At(files, Items(tag)), At(files, Presentation(tag));
      var id := ToInt(Shown(g, "id", Null));
      var read := Snapshot(files, tag, order);
      && (read.Ok? <==>
           && g.Some? && g.value.Doc? && id.Some? && NoRaw(p) && NoRaw(At(files, Notes(IntText(id.value))))
           && FindEquipment(files, order, id.value).Ok?)
      && (read.Ok? ==>
            var n, worn, item := At(files, Notes(IntText(id.value))), FindEquipment(files, order, id.value).value,
              read.value;
            && item.id == id.value && item.tag == Shown(g, "label", Str(""))
            && item.category == Shown(g, "category", Str("")) && item.stackLimit == Shown(g, "stack_limit", Int(1))
            && item.confirm == Truthy(Shown(g, "drop_requires_confirmation", Bool(false)))
            && item.displayName == Shown(p, "display_name", Str(""))
            && item.description == Shown(p, "description", Str("")) && item.icon == Shown(p, "icon", Str(""))
            && item.slot == Shown(worn, "equipment_slot", Null)
            && item.notes == Shown(n, "notes", Str("")) && item.tags == Shown(n, "tags", Arr([]))
            && item.revision == [g, p, worn, n])
  {
  }

  /** Without a presentation, a carrier of its id and notes, an item shows empty texts, no tags and no slot. */
  lemma BareItem(files: Files, tag: string, order: seq<string>)
    requires Snapshot(files, tag, order).Ok? && Presentation(tag) !in files
    requires var id := Snapshot(files, tag, order).value.id;
      Notes(IntText(id)) !in files && forall n :: n in order && Equipment(n) in files ==>
        !Carries(files[Equipment(n)], id)
    ensures var item := Snapshot(files, tag, order).value;
      && item.displayName == Str("") && item.description == Str("") && item.icon == Str("") && item.notes == Str("")
      && item.tags == Arr([]) && item.slot == Null
      && item.revision == [At(files, Items(tag)), None, None, None]
  {
    NoneCarries(files, order, Snapshot(files, tag, order).value.id);
  }

  lemma {:induction false} NoneCarries(files: Files, order: seq<string>, id: int)
    requires forall n :: n in order && Equipment(n) in files ==> !Carries(files[Equipment(n)], id)
    ensures FindEquipment(files, order, id).Ok? ==> FindEquipment(files, order, id).value.None?
    decreases |order|
  {
    if order != [] {
      assert order[0] in order;
      NoneCarries(files, order[1..], id);
    }
  }
}
