/** `prepare_monster_allocation` of `tools/mob_lab/server.py` and what it reads. */
module Monsters {
  import opened Basics
  import opened Catalog

  const FIRST := 10_001
  const LAST := 19_999

  datatype Refusal = BadId | EmptyConstant | LedgerOnly(id: nat) | BlockExhausted | ConstantTaken | NoBlock

  /** Either the label is registered already, or both texts are to be rewritten. */
  datatype Allocation = Existing(id: nat) | Fresh(id: nat, registry: Registry) | Refused(why: Refusal)

  predicate IdChar(c: char) { 'a' <= c <= 'z' || '0' <= c <= '9' }

  /** `^monster\.[a-z0-9][a-z0-9._-]*$` */
  predicate MonsterId(tag: string) {
    && "monster." <= tag && |tag| > 8 && IdChar(tag[8])
    && forall i :: 9 <= i < |tag| ==> IdChar(tag[i]) || tag[i] == '.' || tag[i] == '_' || tag[i] == '-'
  }

  predicate MonsterConstant(name: string) {
    "MONSTER_" <= name && |name| > 8 && forall i :: 8 <= i < |name| ==> WordChar(name[i])
  }

  /** `monster_constant_name` */
  function ConstantOf(tag: string): string {
    "MONSTER_" + UpperAll(StripLeft(StripRight(Collapse(RemovePrefix(tag, "monster.")))))
  }

  // Reading: in both dictionaries a later line wins.

  function Constants(catalog: seq<Line>): map<string, nat> {
    if catalog == [] then map[]
    else
      var n := |catalog| - 1;
      var line := catalog[n];
      if line.Const? then Constants(catalog[..n])[line.name := ParseRaw(line.digits)] else Constants(catalog[..n])
  }

  function Labels(constants: map<string, nat>, catalog: seq<Line>): map<string, nat> {
    if catalog == [] then map[]
    else
      var n := |catalog| - 1;
      var line := catalog[n];
      var before := Labels(constants, catalog[..n]);
      if line.Arm? && line.constant in constants then before[line.tag := constants[line.constant]] else before
  }

  /** `load_numeric_catalog` */
  function LoadNumeric(catalog: seq<Line>): map<string, nat> { Labels(Constants(catalog), catalog) }

  predicate IsMonsterRow(e: Entry) { e.Row? && 10_000 <= e.id <= 19_999 && "monster." <= e.tag && |e.tag| > 8 }

  /** The last ledger row of the label, as `monster_ledger_labels` keeps it. */
  function LedgerRow(ledger: seq<Entry>, tag: string): Option<nat> {
    if ledger == [] then None
    else
      var n := |ledger| - 1;
      if IsMonsterRow(ledger[n]) && ledger[n].tag == tag then Some(ledger[n].id) else LedgerRow(ledger[..n], tag)
  }

  predicate IsMonsterConst(line: Line) { line.Const? && MonsterConstant(line.name) }

  predicate IsMonsterArm(line: Line) {
    line.Arm? && "monster." <= line.tag && |line.tag| > 8 && MonsterConstant(line.constant)
  }

  predicate IsMonsterReverse(line: Line) {
    line.Reverse? && "monster." <= line.tag && |line.tag| > 8 && MonsterConstant(line.constant)
  }

  /** `monster_reserved_ids`: monster constants and monster ledger rows, inside the block. */
  predicate Reserved(r: Registry, id: nat) {
    && FIRST <= id <= LAST
    && ((exists line :: line in r.catalog && IsMonsterConst(line) && ParseRaw(line.digits) == id)
        || (exists e :: e in r.ledger && IsMonsterRow(e) && e.id == id))
  }

  /** `next_monster_content_id` */
  method NextMonsterContentId(r: Registry) returns (id: Option<nat>)
    ensures id == NextMonster(r, FIRST)
  {
    var raw := FIRST;
    while raw <= LAST
      invariant FIRST <= raw <= LAST + 1
      invariant NextMonster(r, FIRST) == NextMonster(r, raw)
      decreases LAST + 1 - raw
    {
      if !Reserved(r, raw) { return Some(raw); }
      raw := raw + 1;
    }
    id := None;
  }

  function NextMonster(r: Registry, from: nat): (id: Option<nat>)
    ensures id.Some? ==> from <= id.value <= LAST && !Reserved(r, id.value) && forall n :: from <= n < id.value ==>
      Reserved(r, n)
    ensures id.None? ==> forall n :: from <= n <= LAST ==> Reserved(r, n)
    decreases LAST + 1 - from
  {
    if from > LAST then None else if Reserved(r, from) then NextMonster(r, from + 1) else Some(from)
  }

  function InsertMonster(catalog: seq<Line>, tag: string, constant: string, id: nat): Option<seq<Line>> {
    var one := InsertAfterLast(catalog, IsMonsterConst, Const(constant, RawId(id)));
    if one.None? then None
    else
      var two := InsertAfterLast(one.value, IsMonsterArm, Arm(tag, constant));
      if two.None? then None else InsertAfterLast(two.value, IsMonsterReverse, Reverse(constant, tag))
  }

  /** `prepare_monster_allocation` */
  function Prepare(r: Registry, tag: string): Allocation {
    var known := LoadNumeric(r.catalog);
    if tag in known then Existing(known[tag])
    else if LedgerRow(r.ledger, tag).Some? then Refused(LedgerOnly(LedgerRow(r.ledger, tag).value))
    else
      var id := NextMonster(r, FIRST);
      if id.None? then Refused(BlockExhausted)
      else if !MonsterId(tag) then Refused(BadId)
      else
        var constant := ConstantOf(tag);
        if constant == "MONSTER_" then Refused(EmptyConstant) else InsertBoth(r, tag, constant, id.value)
  }

  /** Its last part: both texts with the new lines. */
  function InsertBoth(r: Registry, tag: string, constant: string, id: nat): Allocation {
    if exists line :: line in r.catalog && Mentions(line, constant) then Refused(ConstantTaken)
    else
      var catalog := InsertMonster(r.catalog, tag, constant, id);
      var ledger := InsertAfterLast(r.ledger, IsMonsterRow, Row(id, tag, "active"));
      if catalog.None? || ledger.None? then Refused(NoBlock) else Fresh(id, Registry(catalog.value, ledger.value))
  }

  // What an allocation does to the label map.

  lemma {:induction false} ConstantsConcat(a: seq<Line>, b: seq<Line>)
    ensures Constants(a + b) == Constants(a) + Constants(b)
    decreases |b|
  {
    if b == [] {
      assert a + b == a;
    } else {
      var n := |b| - 1;
      assert (a + b)[..|a + b| - 1] == a + b[..n];
      ConstantsConcat(a, b[..n]);
    }
  }

  lemma {:induction false} LabelsConcat(constants: map<string, nat>, a: seq<Line>, b: seq<Line>)
    ensures Labels(constants, a + b) == Labels(constants, a) + Labels(constants, b)
    decreases |b|
  {
    if b == [] {
      assert a + b == a;
    } else {
      var n := |b| - 1;
      assert (a + b)[..|a + b| - 1] == a + b[..n];
      LabelsConcat(constants, a, b[..n]);
    }
  }

  lemma {:induction false} NoMentionNoConstant(catalog: seq<Line>, name: string)
    requires forall line :: line in catalog ==> !Mentions(line, name)
    ensures name !in Constants(catalog)
  {
    if catalog != [] {
      var n := |catalog| - 1;
      assert catalog[n] in catalog;
      NoMentionNoConstant(catalog[..n], name);
    }
  }

  lemma {:induction false} NewConstantUnused(constants: map<string, nat>, catalog: seq<Line>, name: string, id: nat)
    requires forall line :: line in catalog ==> !Mentions(line, name)
    ensures Labels(constants[name := id], catalog) == Labels(constants, catalog)
  {
    if catalog != [] {
      var n := |catalog| - 1;
      assert catalog[n] in catalog;
      NewConstantUnused(constants, catalog[..n], name, id);
    }
  }

  lemma MergeUpdate(a: map<string, nat>, b: map<string, nat>, key: string, value: nat)
    requires key !in b
    ensures a[key := value] + b == (a + b)[key := value]
  {
  }

  lemma InsertConstantEffect(catalog: seq<Line>, k: nat, line: Line)
    requires k <= |catalog|
    requires line.Const? ==> line.name !in Constants(catalog)
    ensures Constants(InsertAt(catalog, k, line)) ==
      if line.Const? then Constants(catalog)[line.name := ParseRaw(line.digits)] else Constants(catalog)
  {
    var a, b := catalog[..k], catalog[k..];
    assert catalog == a + b;
    var more := a + [line];
    assert more[..|more| - 1] == a && more[|more| - 1] == line;
    ConstantsConcat(a, b);
    ConstantsConcat(more, b);
    if line.Const? { MergeUpdate(Constants(a), Constants(b), line.name, ParseRaw(line.digits)); }
  }

  lemma InsertLabelEffect(constants: map<string, nat>, catalog: seq<Line>, k: nat, line: Line)
    requires k <= |catalog|
    requires line.Arm? ==> line.tag !in Labels(constants, catalog) && line.constant in constants
    ensures Labels(constants, InsertAt(catalog, k, line)) ==
      if line.Arm? then Labels(constants, catalog)[line.tag := constants[line.constant]] else Labels(constants, catalog)
  {
    var a, b := catalog[..k], catalog[k..];
    assert catalog == a + b && [line][..0] == [];
    LabelsConcat(constants, a, b);
    LabelsConcat(constants, a + [line], b);
    LabelsConcat(constants, a, [line]);
  }

  /** Exactly one label is added to the map, with the id that was written; every other entry is as before. */
  lemma InsertMonsterEffect(catalog: seq<Line>, tag: string, constant: string, id: nat)
    requires InsertMonster(catalog, tag, constant, id).Some? && tag !in LoadNumeric(catalog)
    requires forall line :: line in catalog ==> !Mentions(line, constant)
    ensures LoadNumeric(InsertMonster(catalog, tag, constant, id).value) == LoadNumeric(catalog)[tag := id]
  {
    var a := BehindLast(catalog, IsMonsterConst);
    var one := InsertAt(catalog, a, Const(constant, RawId(id)));
    var b := BehindLast(one, IsMonsterArm);
    var two := InsertAt(one, b, Arm(tag, constant));
    var c := BehindLast(two, IsMonsterReverse);
    var before := Constants(catalog);
    var after := before[constant := id];
    NoMentionNoConstant(catalog, constant);
    RawIdReadsBack(id);
    InsertConstantEffect(catalog, a, Const(constant, RawId(id)));
    InsertConstantEffect(one, b, Arm(tag, constant));
    InsertConstantEffect(two, c, Reverse(constant, tag));
    NewConstantUnused(before, catalog, constant, id);
    InsertLabelEffect(after, catalog, a, Const(constant, RawId(id)));
    InsertLabelEffect(after, one, b, Arm(tag, constant));
    InsertLabelEffect(after, two, c, Reverse(constant, tag));
  }

  ghost predicate InjectiveMap(m: map<string, nat>) {
    forall a, b :: a in m && b in m && m[a] == m[b] ==> a == b
  }

  lemma FreshParts(r: Registry, tag: string)
    requires Prepare(r, tag).Fresh?
    ensures var id, constant := Prepare(r, tag).id, ConstantOf(tag);
      && tag !in LoadNumeric(r.catalog)
      && NextMonster(r, FIRST) == Some(id)
      && (forall line :: line in r.catalog ==> !Mentions(line, constant))
      && InsertMonster(r.catalog, tag, constant, id) == Some(Prepare(r, tag).registry.catalog)
      && InsertAfterLast(r.ledger, IsMonsterRow, Row(id, tag, "active")) == Some(Prepare(r, tag).registry.ledger)
      && MonsterId(tag)
  {
  }

  /** A fresh allocation adds one entry to the label map and takes the least unreserved id. */
  lemma FreshAllocation(r: Registry, tag: string)
    requires Prepare(r, tag).Fresh?
    ensures var id := Prepare(r, tag).id;
      && LoadNumeric(Prepare(r, tag).registry.catalog) == LoadNumeric(r.catalog)[tag := id]
      && FIRST <= id <= LAST && !Reserved(r, id) && forall n :: FIRST <= n < id ==> Reserved(r, n)
  {
    FreshParts(r, tag);
    InsertMonsterEffect(r.catalog, tag, ConstantOf(tag), Prepare(r, tag).id);
  }

  /**
   Only monster constants and rows are reserved. So an allocation that succeeds leaves two labels on one id if
   and only if some label already holds the id that `next_monster_content_id` is about to give.
   */
  lemma StaysInjectiveIff(r: Registry, tag: string)
    requires Prepare(r, tag).Fresh? && InjectiveMap(LoadNumeric(r.catalog))
    ensures NextMonster(r, FIRST).Some?
    ensures InjectiveMap(LoadNumeric(Prepare(r, tag).registry.catalog)) <==>
      forall other :: other in LoadNumeric(r.catalog) ==> LoadNumeric(r.catalog)[other] != NextMonster(r, FIRST).value
  {
    FreshParts(r, tag);
    FreshAllocation(r, tag);
    InjectiveUpdate(LoadNumeric(r.catalog), tag, Prepare(r, tag).id);
  }

  lemma InjectiveUpdate(before: map<string, nat>, tag: string, id: nat)
    requires InjectiveMap(before) && tag !in before
    ensures InjectiveMap(before[tag := id]) <==> forall other :: other in before ==> before[other] != id
  {
    var after := before[tag := id];
    forall other | other in before ensures other in after && after[other] == before[other] && other != tag {}
    assert tag in after && after[tag] == id;
  }

  /** A catalog in which a map constant sits on the first monster id, written `a`; `b` is the next one. */
  function Clashing(a: string, b: string): Registry {
    Registry(
      [Const("MAP1", a)] + [Const("MONSTER_A", b)] + [Arm("map.map1", "MAP1")] + [Arm("monster.a", "MONSTER_A")]
      + [Reverse("MONSTER_A", "monster.a")],
      [Row(10_002, "monster.a", "active")])
  }

  lemma ConstantsSnoc(catalog: seq<Line>, line: Line)
    ensures Constants(catalog + [line]) ==
      if line.Const? then Constants(catalog)[line.name := ParseRaw(line.digits)] else Constants(catalog)
  {
    assert (catalog + [line])[..|catalog|] == catalog;
  }

  lemma LabelsSnoc(constants: map<string, nat>, catalog: seq<Line>, line: Line)
    ensures Labels(constants, catalog + [line]) ==
      if line.Arm? && line.constant in constants then Labels(constants, catalog)[line.tag := constants[line.constant]]
      else Labels(constants, catalog)
  {
    assert (catalog + [line])[..|catalog|] == catalog;
  }

  lemma ClashingConstants(a: string, b: string)
    requires ParseRaw(a) == 10_001 && ParseRaw(b) == 10_002
    ensures Constants(Clashing(a, b).catalog) == map["MAP1" := 10_001, "MONSTER_A" := 10_002]
  {
    var one := [Const("MAP1", a)];
    var two := one + [Const("MONSTER_A", b)];
    var three := two + [Arm("map.map1", "MAP1")];
    var four := three + [Arm("monster.a", "MONSTER_A")];
    assert [] + one == one;
    ConstantsSnoc([], Const("MAP1", a));
    ConstantsSnoc(one, Const("MONSTER_A", b));
    ConstantsSnoc(two, Arm("map.map1", "MAP1"));
    ConstantsSnoc(three, Arm("monster.a", "MONSTER_A"));
    ConstantsSnoc(four, Reverse("MONSTER_A", "monster.a"));
  }

  lemma ClashingLabels(a: string, b: string)
    requires ParseRaw(a) == 10_001 && ParseRaw(b) == 10_002
    ensures LoadNumeric(Clashing(a, b).catalog) == map["map.map1" := 10_001, "monster.a" := 10_002]
  {
    ClashingConstants(a, b);
    var m := Constants(Clashing(a, b).catalog);
    var one := [Const("MAP1", a)];
    var two := one + [Const("MONSTER_A", b)];
    var three := two + [Arm("map.map1", "MAP1")];
    var four := three + [Arm("monster.a", "MONSTER_A")];
    assert [] + one == one;
    LabelsSnoc(m, [], Const("MAP1", a));
    LabelsSnoc(m, one, Const("MONSTER_A", b));
    LabelsSnoc(m, two, Arm("map.map1", "MAP1"));
    LabelsSnoc(m, three, Arm("monster.a", "MONSTER_A"));
    LabelsSnoc(m, four, Reverse("MONSTER_A", "monster.a"));
  }

  lemma NameOfB()
    ensures ConstantOf("monster.b") == "MONSTER_B" && MonsterId("monster.b")
  {
    assert RemovePrefix("monster.b", "monster.") == "b";
    assert "b"[..0] == "" && Collapse("b") == "b" && StripRight("b") == "b" && StripLeft("b") == "b";
    assert UpperAll("b") == "B";
  }

  lemma FirstIsNotReserved(a: string, b: string)
    requires ParseRaw(a) == 10_001 && ParseRaw(b) == 10_002
    ensures NextMonster(Clashing(a, b), FIRST) == Some(10_001)
  {
    assert !Reserved(Clashing(a, b), FIRST) by { assert !MonsterConstant("MAP1"); }
  }

  lemma FreshWhen(r: Registry, tag: string, id: nat, constant: string)
    requires tag !in LoadNumeric(r.catalog) && LedgerRow(r.ledger, tag) == None
    requires NextMonster(r, FIRST) == Some(id) && MonsterId(tag)
    requires ConstantOf(tag) == constant && constant != "MONSTER_"
    requires forall line :: line in r.catalog ==> !Mentions(line, constant)
    requires InsertMonster(r.catalog, tag, constant, id).Some?
    requires InsertAfterLast(r.ledger, IsMonsterRow, Row(id, tag, "active")).Some?
    ensures Prepare(r, tag).Fresh? && Prepare(r, tag).id == id
  {
    assert InsertBoth(r, tag, constant, id).Fresh?;
  }

  /** An insertion finds its place when a line of the right kind is there. */
  lemma FindsPlace<T>(lines: seq<T>, p: T -> bool, line: T, found: T)
    requires found in lines && p(found)
    ensures InsertAfterLast(lines, p, line).Some?
    ensures forall l :: l in lines ==> l in InsertAfterLast(lines, p, line).value
  {
    var i :| 0 <= i < |lines| && lines[i] == found;
    var k := BehindLast(lines, p);
    assert k > i;
    forall l | l in lines ensures l in InsertAt(lines, k, line) {
      var j :| 0 <= j < |lines| && lines[j] == l;
      assert InsertAt(lines, k, line)[if j < k then j else j + 1] == l;
    }
  }

  lemma ClashingInserts(a: string, b: string)
    ensures InsertMonster(Clashing(a, b).catalog, "monster.b", "MONSTER_B", 10_001).Some?
  {
    InsertsInto(Clashing(a, b).catalog, Const("MONSTER_A", b), Arm("monster.a", "MONSTER_A"),
      Reverse("MONSTER_A", "monster.a"),
                "monster.b", "MONSTER_B", 10_001);
  }

  /** A catalog with a line of each kind takes an insertion. */
  lemma InsertsInto(c: seq<Line>, x: Line, y: Line, z: Line, tag: string, constant: string, id: nat)
    requires x in c && y in c && z in c && IsMonsterConst(x) && IsMonsterArm(y) && IsMonsterReverse(z)
    ensures InsertMonster(c, tag, constant, id).Some?
  {
    FindsPlace(c, IsMonsterConst, Const(constant, RawId(id)), x);
    var one := InsertAfterLast(c, IsMonsterConst, Const(constant, RawId(id))).value;
    FindsPlace(one, IsMonsterArm, Arm(tag, constant), y);
    var two := InsertAfterLast(one, IsMonsterArm, Arm(tag, constant)).value;
    FindsPlace(two, IsMonsterReverse, Reverse(constant, tag), z);
  }

  lemma ClashingLedger(row: Entry)
    ensures var ledger := [Entry.Row(10_002, "monster.a", "active")];
      LedgerRow(ledger, "monster.b") == None && InsertAfterLast(ledger, IsMonsterRow, row).Some?
  {
    var ledger := [Entry.Row(10_002, "monster.a", "active")];
    assert ledger[..0] == [] && IsMonsterRow(ledger[0]) && "monster.a"[8] != "monster.b"[8];
    FindsPlace(ledger, IsMonsterRow, row, ledger[0]);
  }

  lemma Unmentioned(a: string, b: string)
    ensures forall line :: line in Clashing(a, b).catalog ==> !Mentions(line, "MONSTER_B")
  {
    assert "MONSTER_A"[8] != "MONSTER_B"[8] && |"MAP1"| != |"MONSTER_B"|;
  }

  lemma ClashingIsFresh(a: string, b: string)
    requires ParseRaw(a) == 10_001 && ParseRaw(b) == 10_002
    ensures Prepare(Clashing(a, b), "monster.b").Fresh? && Prepare(Clashing(a, b), "monster.b").id == 10_001
  {
    var r := Clashing(a, b);
    ClashingLabels(a, b);
    NameOfB();
    FirstIsNotReserved(a, b);
    ClashingInserts(a, b);
    ClashingLedger(Row(10_001, "monster.b", "active"));
    Unmentioned(a, b);
    assert "monster.a"[8] != "monster.b"[8] && "map.map1" != "monster.b" && |"MONSTER_B"| != |"MONSTER_"|;
    FreshWhen(r, "monster.b", 10_001, "MONSTER_B");
  }

  /** There a new monster is given the map's id: the allocation succeeds and two labels share 10001. */
  lemma ForeignIdIsHandedOut()
    ensures var a := Prepare(Clashing(RawId(10_001), RawId(10_002)), "monster.b");
      && a.Fresh? && a.id == 10_001
      && "map.map1" in LoadNumeric(a.registry.catalog) && LoadNumeric(a.registry.catalog)["map.map1"] == 10_001
      && "monster.b" in LoadNumeric(a.registry.catalog) && LoadNumeric(a.registry.catalog)["monster.b"] == 10_001
  {
    RawIdReadsBack(10_001);
    RawIdReadsBack(10_002);
    HandedOut(RawId(10_001), RawId(10_002));
  }

  lemma HandedOut(a: string, b: string)
    requires ParseRaw(a) == 10_001 && ParseRaw(b) == 10_002
    ensures var given := Prepare(Clashing(a, b), "monster.b");
      && given.Fresh? && given.id == 10_001
      && LoadNumeric(given.registry.catalog) == map["map.map1" := 10_001, "monster.a" := 10_002, "monster.b" := 10_001]
  {
    ClashingIsFresh(a, b);
    ClashingLabels(a, b);
    FreshAllocation(Clashing(a, b), "monster.b");
  }
}
