/**
 The one catalog and ledger under both Labs: runs in which item creates (`tools/item_lab/server.py`) and monster
 allocations (`tools/mob_lab/server.py`) follow each other in any order.
 */
module Registries {
  import opened Basics
  import opened Catalog
  import opened Monsters

  datatype Op = ItemOp(tag: string) | MonsterOp(tag: string)

  /** One create; a refused one leaves both texts as they were. */
  function Apply(r: Registry, op: Op): Registry {
    match op
    case ItemOp(tag) => var c := Create(r, tag); if c.Ok? then c.value.registry else r
    case MonsterOp(tag) => var a := Prepare(r, tag); if a.Fresh? then a.registry else r
  }

  function ApplyAll(r: Registry, ops: seq<Op>): Registry
    decreases |ops|
  {
    if ops == [] then r else ApplyAll(Apply(r, ops[0]), ops[1..])
  }

  /** Every label whose id lies in the monster block stands on an id that monster allocation keeps clear of. */
  ghost predicate Clear(r: Registry) {
    var m := LoadNumeric(r.catalog);
    forall l :: l in m && FIRST <= m[l] <= LAST ==> Reserved(r, m[l])
  }

  ghost predicate Has<T(!new)>(lines: seq<T>, p: T -> bool) { exists l :: l in lines && p(l) }

  /** The four places at which a monster is inserted are there. */
  ghost predicate HasBlocks(r: Registry) {
    && Has(r.catalog, IsMonsterConst) && Has(r.catalog, IsMonsterArm) && Has(r.catalog, IsMonsterReverse)
    && Has(r.ledger, IsMonsterRow)
  }

  /** No label of the first map has moved in the second. */
  ghost predicate KeepsLabels(before: map<string, nat>, after: map<string, nat>) {
    forall l :: l in before ==> l in after && after[l] == before[l]
  }

  // What the insertions add.

  lemma InsertedLines<T>(lines: seq<T>, k: nat, line: T)
    requires k <= |lines|
    ensures forall l :: l in InsertAt(lines, k, line) <==> l in lines || l == line
  {
    assert lines == lines[..k] + lines[k..];
  }

  lemma LinesBehind<T(!new)>(lines: seq<T>, p: T -> bool, line: T)
    requires InsertAfterLast(lines, p, line).Some?
    ensures Has(lines, p) && forall l :: l in InsertAfterLast(lines, p, line).value <==> l in lines || l == line
  {
    var k := BehindLast(lines, p);
    InsertedLines(lines, k, line);
    assert lines[k - 1] in lines;
  }

  lemma MonsterCatalogLines(catalog: seq<Line>, tag: string, constant: string, id: nat)
    requires InsertMonster(catalog, tag, constant, id).Some?
    ensures forall l :: l in InsertMonster(catalog, tag, constant, id).value <==>
      l in catalog || l == Const(constant, RawId(id)) || l == Arm(tag, constant) || l == Reverse(constant, tag)
    ensures Has(catalog, IsMonsterConst) && Has(catalog, IsMonsterArm) && Has(catalog, IsMonsterReverse)
  {
    LinesBehind(catalog, IsMonsterConst, Const(constant, RawId(id)));
    var one := InsertAfterLast(catalog, IsMonsterConst, Const(constant, RawId(id))).value;
    LinesBehind(one, IsMonsterArm, Arm(tag, constant));
    var two := InsertAfterLast(one, IsMonsterArm, Arm(tag, constant)).value;
    LinesBehind(two, IsMonsterReverse, Reverse(constant, tag));
    HasStill(catalog, one, IsMonsterArm, Const(constant, RawId(id)));
    HasStill(catalog, one, IsMonsterReverse, Const(constant, RawId(id)));
    HasStill(one, two, IsMonsterReverse, Arm(tag, constant));
  }

  lemma HasStill<T(!new)>(before: seq<T>, after: seq<T>, p: T -> bool, line: T)
    requires (forall l :: l in after <==> l in before || l == line) && !p(line)
    ensures Has(after, p) <==> Has(before, p)
  {
  }

  /** A fresh monster adds three catalog lines on its constant and one ledger row, and loses nothing. */
  lemma MonsterLines(r: Registry, tag: string)
    requires Prepare(r, tag).Fresh?
    ensures var a, constant := Prepare(r, tag), ConstantOf(tag);
      && (forall l :: l in a.registry.catalog <==>
            l in r.catalog || l == Const(constant, RawId(a.id)) || l == Arm(tag, constant)
              || l == Reverse(constant, tag))
      && (forall e :: e in a.registry.ledger <==> e in r.ledger || e == Row(a.id, tag, "active"))
      && MonsterId(tag) && HasBlocks(r)
  {
    FreshParts(r, tag);
    MonsterCatalogLines(r.catalog, tag, ConstantOf(tag), Prepare(r, tag).id);
    LinesBehind(r.ledger, IsMonsterRow, Row(Prepare(r, tag).id, tag, "active"));
  }

  lemma ItemCatalogLines(catalog: seq<Line>, p: Places, name: string, tag: string, id: nat)
    requires Inserted(catalog, p, name, tag, id).Some?
    ensures forall l :: l in Inserted(catalog, p, name, tag, id).value <==>
      l in catalog || l == Const(name, RawId(id)) || l == Arm(tag, name) || l == Reverse(name, tag) || l == Kind(name)
  {
    var one := InsertAt(catalog, p.constant, Const(name, RawId(id)));
    var two := InsertAt(one, p.arm, Arm(tag, name));
    var three := InsertAt(two, p.reverse, Reverse(name, tag));
    InsertedLines(catalog, p.constant, Const(name, RawId(id)));
    InsertedLines(one, p.arm, Arm(tag, name));
    InsertedLines(two, p.reverse, Reverse(name, tag));
    InsertedLines(three, p.kind, Kind(name));
  }

  lemma ItemRowLines(ledger: seq<Entry>, tag: string, id: nat)
    requires InsertLedger(ledger, tag, id).Ok?
    ensures forall e :: e in InsertLedger(ledger, tag, id).value <==> e in ledger || e == Row(id, tag, "active")
  {
    LinesBehind(ledger, IsItemRow, Row(id, tag, "active"));
  }

  /** A created item adds four catalog lines on its constant and one ledger row, and loses nothing. */
  lemma ItemLines(r: Registry, tag: string)
    requires Create(r, tag).Ok?
    ensures ConstName(tag).Ok?
    ensures var c, name := Create(r, tag).value, ConstName(tag).value;
      && (forall l :: l in c.registry.catalog <==>
            l in r.catalog || l == Const(name, RawId(c.id)) || l == Arm(tag, name) || l == Reverse(name, tag)
            || l == Kind(name))
      && (forall e :: e in c.registry.ledger <==> e in r.ledger || e == Row(c.id, tag, "active"))
  {
    CreateParts(r, tag);
    var id := Create(r, tag).value.id;
    var p := PlacesOf(r.catalog, tag, id);
    ItemCatalogLines(r.catalog, p, ConstName(tag).value, tag, id);
    ItemRowLines(r.ledger, tag, id);
  }

  lemma ItemConstantIsNoMonsters(name: string)
    requires ItemConstant(name)
    ensures !MonsterConstant(name)
  {
    assert name[0] == 'I';
  }

  /** The lines that a monster brings reserve its id and no other. */
  lemma LinesReserve(r: Registry, after: Registry, tag: string, constant: string, id: nat, n: nat)
    requires forall l :: l in after.catalog <==>
      l in r.catalog || l == Const(constant, RawId(id)) || l == Arm(tag, constant) || l == Reverse(constant, tag)
    requires forall e :: e in after.ledger <==> e in r.ledger || e == Row(id, tag, "active")
    requires FIRST <= id <= LAST && "monster." <= tag && |tag| > 8
    ensures Reserved(after, n) <==> Reserved(r, n) || n == id
  {
    RawIdReadsBack(id);
    var row := Entry.Row(id, tag, "active");
    assert IsMonsterRow(row) && row in after.ledger;
  }

  /** After a monster allocation exactly its id is reserved in addition. */
  lemma MonsterReserves(r: Registry, tag: string, n: nat)
    requires Prepare(r, tag).Fresh?
    ensures Reserved(Prepare(r, tag).registry, n) <==> Reserved(r, n) || n == Prepare(r, tag).id
  {
    MonsterLines(r, tag);
    FreshAllocation(r, tag);
    LinesReserve(r, Prepare(r, tag).registry, tag, ConstantOf(tag), Prepare(r, tag).id, n);
  }

  /** An item create reserves nothing for monsters, and makes no place for them. */
  lemma ItemReserves(r: Registry, tag: string, n: nat)
    requires Create(r, tag).Ok?
    ensures Reserved(Create(r, tag).value.registry, n) <==> Reserved(r, n)
    ensures HasBlocks(Create(r, tag).value.registry) <==> HasBlocks(r)
  {
    ItemLines(r, tag);
    CreateAllocatesLeast(r, tag);
    ConstNameForm(tag);
    LinesReserveNothing(r, Create(r, tag).value.registry, tag, ConstName(tag).value, Create(r, tag).value.id, n);
  }

  /** The lines that an item brings concern no monster. */
  lemma LinesReserveNothing(r: Registry, after: Registry, tag: string, name: string, id: nat, n: nat)
    requires forall l :: l in after.catalog <==>
      l in r.catalog || l == Const(name, RawId(id)) || l == Arm(tag, name) || l == Reverse(name, tag) || l == Kind(name)
    requires forall e :: e in after.ledger <==> e in r.ledger || e == Row(id, tag, "active")
    requires ItemConstant(name) && id > LAST
    ensures Reserved(after, n) <==> Reserved(r, n)
    ensures HasBlocks(after) <==> HasBlocks(r)
  {
    ItemConstantIsNoMonsters(name);
    assert !IsMonsterRow(Entry.Row(id, tag, "active"));
  }

  /** The id of every label is the id of some constant. */
  lemma NumericIdsAreUsed(catalog: seq<Line>, l: string)
    requires l in LoadNumeric(catalog)
    ensures LoadNumeric(catalog)[l] in CatalogIds(catalog)
  {
    var name := LabelledConstant(Constants(catalog), catalog, l);
    ConstantIdIsUsed(catalog, name);
  }

  lemma {:induction false} LabelledConstant(constants: map<string, nat>, catalog: seq<Line>, l: string)
    returns (name: string)
    requires l in Labels(constants, catalog)
    ensures name in constants && Labels(constants, catalog)[l] == constants[name]
  {
    var n := |catalog| - 1;
    var line := catalog[n];
    if line.Arm? && line.constant in constants && line.tag == l {
      name := line.constant;
    } else {
      name := LabelledConstant(constants, catalog[..n], l);
    }
  }

  lemma {:induction false} ConstantIdIsUsed(catalog: seq<Line>, name: string)
    requires name in Constants(catalog)
    ensures Constants(catalog)[name] in CatalogIds(catalog)
  {
    var n := |catalog| - 1;
    LastIds(catalog);
    if !(catalog[n].Const? && catalog[n].name == name) { ConstantIdIsUsed(catalog[..n], name); }
  }

  lemma {:induction false} LastIds(catalog: seq<Line>)
    requires catalog != []
    ensures CatalogIds(catalog) == CatalogIds(catalog[..|catalog| - 1]) + LineIds(catalog[|catalog| - 1])
  {
    var n := |catalog| - 1;
    if n > 0 {
      assert catalog[1..][..n - 1] == catalog[..n][1..];
      LastIds(catalog[1..]);
    } else {
      assert catalog[1..] == [] && catalog[..0] == [];
    }
  }

  /** An item create adds exactly one entry to the label map of the Mob Lab, on an id that no label had. */
  lemma ItemNumeric(r: Registry, tag: string)
    requires Create(r, tag).Ok?
    ensures var c, m := Create(r, tag).value, LoadNumeric(r.catalog);
      && tag !in m && LoadNumeric(c.registry.catalog) == m[tag := c.id] && forall l :: l in m ==> m[l] != c.id
  {
    CreateParts(r, tag);
    CreateAllocatesLeast(r, tag);
    var id := Create(r, tag).value.id;
    ItemInsertEffect(r.catalog, tag, id);
    var m := LoadNumeric(r.catalog);
    forall l | l in m ensures m[l] != id { NumericIdsAreUsed(r.catalog, l); }
  }

  lemma {:induction false} UnquotedLabel(constants: map<string, nat>, catalog: seq<Line>, tag: string)
    requires forall line :: line in catalog ==> !Quotes(line, tag)
    ensures tag !in Labels(constants, catalog)
  {
    if catalog != [] {
      var n := |catalog| - 1;
      assert catalog[n] in catalog;
      UnquotedLabel(constants, catalog[..n], tag);
    }
  }

  lemma ItemInsertEffect(catalog: seq<Line>, tag: string, id: nat)
    requires InsertCatalog(catalog, tag, id).Ok?
    ensures tag !in LoadNumeric(catalog)
    ensures LoadNumeric(InsertCatalog(catalog, tag, id).value) == LoadNumeric(catalog)[tag := id]
  {
    var name := ConstName(tag).value;
    var p := PlacesOf(catalog, tag, id);
    var constant, arm, reverse := Const(name, RawId(id)), Arm(tag, name), Reverse(name, tag);
    var one := InsertAt(catalog, p.constant, constant);
    var two := InsertAt(one, p.arm, arm);
    var three := InsertAt(two, p.reverse, reverse);
    var before := Constants(catalog);
    var after := before[name := id];
    NoMentionNoConstant(catalog, name);
    UnquotedLabel(before, catalog, tag);
    RawIdReadsBack(id);
    InsertConstantEffect(catalog, p.constant, constant);
    InsertConstantEffect(one, p.arm, arm);
    InsertConstantEffect(two, p.reverse, reverse);
    InsertConstantEffect(three, p.kind, Kind(name));
    NewConstantUnused(before, catalog, name, id);
    InsertLabelEffect(after, catalog, p.constant, constant);
    InsertLabelEffect(after, one, p.arm, arm);
    InsertLabelEffect(after, two, p.reverse, reverse);
    InsertLabelEffect(after, three, p.kind, Kind(name));
  }

  // One create of either kind.

  /** No create moves a label of the Mob Lab's map. */
  lemma ApplyKeepsLabels(r: Registry, op: Op)
    ensures KeepsLabels(LoadNumeric(r.catalog), LoadNumeric(Apply(r, op).catalog))
  {
    if op.ItemOp? && Create(r, op.tag).Ok? { ItemNumeric(r, op.tag); }
    if op.MonsterOp? && Prepare(r, op.tag).Fresh? {
      FreshParts(r, op.tag);
      FreshAllocation(r, op.tag);
    }
  }

  lemma ItemKeepsClear(r: Registry, tag: string)
    requires Create(r, tag).Ok?
    ensures Clear(r) ==> Clear(Create(r, tag).value.registry)
    ensures InjectiveMap(LoadNumeric(r.catalog)) ==> InjectiveMap(LoadNumeric(Create(r, tag).value.registry.catalog))
  {
    var c := Create(r, tag).value;
    ItemNumeric(r, tag);
    CreateAllocatesLeast(r, tag);
    if InjectiveMap(LoadNumeric(r.catalog)) { InjectiveUpdate(LoadNumeric(r.catalog), tag, c.id); }
    var m := LoadNumeric(c.registry.catalog);
    if Clear(r) {
      forall l | l in m && FIRST <= m[l] <= LAST ensures Reserved(c.registry, m[l]) { ItemReserves(r, tag, m[l]); }
    }
  }

  lemma MonsterKeepsClear(r: Registry, tag: string)
    requires Prepare(r, tag).Fresh? && Clear(r)
    ensures Clear(Prepare(r, tag).registry)
    ensures InjectiveMap(LoadNumeric(r.catalog)) ==> InjectiveMap(LoadNumeric(Prepare(r, tag).registry.catalog))
  {
    var a := Prepare(r, tag);
    FreshParts(r, tag);
    FreshAllocation(r, tag);
    if InjectiveMap(LoadNumeric(r.catalog)) { InjectiveUpdate(LoadNumeric(r.catalog), tag, a.id); }
    var m := LoadNumeric(a.registry.catalog);
    forall l | l in m && FIRST <= m[l] <= LAST ensures Reserved(a.registry, m[l]) { MonsterReserves(r, tag, m[l]); }
  }

  // Runs.

  /** Over any run of creates of both kinds, from any registry, no label of the map moves. */
  lemma {:induction false} LabelsNeverMove(r: Registry, ops: seq<Op>)
    ensures KeepsLabels(LoadNumeric(r.catalog), LoadNumeric(ApplyAll(r, ops).catalog))
    decreases |ops|
  {
    if ops != [] {
      ApplyKeepsLabels(r, ops[0]);
      LabelsNeverMove(Apply(r, ops[0]), ops[1..]);
    }
  }

  /** From a clear registry the labels stay on distinct ids over any run, and the registry stays clear. */
  lemma {:induction false} ClearRunsStayDistinct(r: Registry, ops: seq<Op>)
    requires Clear(r) && InjectiveMap(LoadNumeric(r.catalog))
    ensures Clear(ApplyAll(r, ops)) && InjectiveMap(LoadNumeric(ApplyAll(r, ops).catalog))
    decreases |ops|
  {
    if ops != [] {
      if ops[0].ItemOp? && Create(r, ops[0].tag).Ok? { ItemKeepsClear(r, ops[0].tag); }
      if ops[0].MonsterOp? && Prepare(r, ops[0].tag).Fresh? { MonsterKeepsClear(r, ops[0].tag); }
      ClearRunsStayDistinct(Apply(r, ops[0]), ops[1..]);
    }
  }

  /** Without the monster blocks every monster is refused, so only items are added. */
  lemma {:induction false} BlocklessRunsStayDistinct(r: Registry, ops: seq<Op>)
    requires !HasBlocks(r) && InjectiveMap(LoadNumeric(r.catalog))
    ensures InjectiveMap(LoadNumeric(ApplyAll(r, ops).catalog))
    decreases |ops|
  {
    if ops != [] {
      var tag := ops[0].tag;
      if ops[0].ItemOp? && Create(r, tag).Ok? {
        ItemKeepsClear(r, tag);
        ItemReserves(r, tag, 0);
      }
      if Prepare(r, tag).Fresh? { MonsterLines(r, tag); }
      BlocklessRunsStayDistinct(Apply(r, ops[0]), ops[1..]);
    }
  }

  // A registry that is not clear: a run that ends in a clash.

  function Letters(c: char, k: nat): string { seq(k, i => c) }

  lemma {:induction false} LettersCollapse(k: nat)
    ensures Collapse(Letters('a', k)) == Letters('a', k)
  {
    if k > 0 {
      assert Letters('a', k)[..k - 1] == Letters('a', k - 1);
      LettersCollapse(k - 1);
      assert Letters('a', k) == Letters('a', k - 1) + ['a'];
    }
  }

  lemma LettersName(k: nat)
    requires k > 0
    ensures MonsterId("monster." + Letters('a', k))
      && ConstantOf("monster." + Letters('a', k)) == "MONSTER_" + Letters('A', k)
  {
    var letters := Letters('a', k);
    assert RemovePrefix("monster." + letters, "monster.") == letters;
    LettersCollapse(k);
    assert StripRight(letters) == letters && StripLeft(letters) == letters;
    assert UpperAll(letters) == Letters('A', k);
  }

  lemma LongerThanAll(words: set<string>) returns (k: nat)
    ensures k > 0 && forall w :: w in words ==> |w| < k
  {
    k := 1;
    var left := words;
    while left != {}
      invariant left <= words && k > 0 && forall w :: w in words - left ==> |w| < k
      decreases left
    {
      var w :| w in left;
      left := left - {w};
      if |w| >= k { k := |w| + 1; }
    }
  }

  function WordsOf(line: Line): set<string> {
    match line
    case Const(name, _) => {name}
    case Arm(_, c) => {c}
    case Reverse(c, _) => {c}
    case Kind(c) => {c}
    case KindEnd => {}
    case Other(words, _, _) => words
  }

  /** All words a constant could clash with. */
  function CatalogWords(catalog: seq<Line>): (words: set<string>)
    ensures forall line, w :: line in catalog && Mentions(line, w) ==> w in words
  {
    if catalog == [] then {} else WordsOf(catalog[0]) + CatalogWords(catalog[1..])
  }

  function LedgerTags(ledger: seq<Entry>): set<string> {
    if ledger == [] then {}
    else
      var e := ledger[|ledger| - 1];
      LedgerTags(ledger[..|ledger| - 1]) + if e.Row? then {e.tag} else {}
  }

  lemma {:induction false} UntaggedRow(ledger: seq<Entry>, tag: string)
    requires tag !in LedgerTags(ledger)
    ensures LedgerRow(ledger, tag) == None
  {
    if ledger != [] { UntaggedRow(ledger[..|ledger| - 1], tag); }
  }

  /** As long as the block has an id left, some new monster can be allocated. */
  lemma SomeMonsterFits(r: Registry) returns (tag: string)
    requires HasBlocks(r) && NextMonster(r, FIRST).Some?
    ensures Prepare(r, tag).Fresh? && Prepare(r, tag).id == NextMonster(r, FIRST).value
  {
    var k := LongerThanAll(CatalogWords(r.catalog) + LedgerTags(r.ledger) + LoadNumeric(r.catalog).Keys);
    tag := "monster." + Letters('a', k);
    var constant, id := "MONSTER_" + Letters('A', k), NextMonster(r, FIRST).value;
    LettersName(k);
    assert |tag| > k && |constant| > k;
    UntaggedRow(r.ledger, tag);
    FitsBlocks(r, tag, constant, id);
    FreshWhen(r, tag, id, constant);
  }

  lemma FitsBlocks(r: Registry, tag: string, constant: string, id: nat)
    requires HasBlocks(r)
    ensures InsertMonster(r.catalog, tag, constant, id).Some?
    ensures InsertAfterLast(r.ledger, IsMonsterRow, Row(id, tag, "active")).Some?
  {
    var x :| x in r.catalog && IsMonsterConst(x);
    var y :| y in r.catalog && IsMonsterArm(y);
    var z :| z in r.catalog && IsMonsterReverse(z);
    var e :| e in r.ledger && IsMonsterRow(e);
    InsertsInto(r.catalog, x, y, z, tag, constant, id);
    FindsPlace(r.ledger, IsMonsterRow, Row(id, tag, "active"), e);
  }

  /** One more monster: one more entry, its id reserved, and the blocks are still there. */
  ghost predicate Advances(r: Registry, next: Registry, tag: string, id: nat) {
    && tag !in LoadNumeric(r.catalog) && LoadNumeric(next.catalog) == LoadNumeric(r.catalog)[tag := id]
    && HasBlocks(next) && forall i :: Reserved(next, i) <==> Reserved(r, i) || i == id
  }

  lemma MonsterAdvances(r: Registry, tag: string)
    requires Prepare(r, tag).Fresh?
    ensures Advances(r, Prepare(r, tag).registry, tag, Prepare(r, tag).id)
  {
    FreshParts(r, tag);
    FreshAllocation(r, tag);
    MonsterLines(r, tag);
    forall i ensures Reserved(Prepare(r, tag).registry, i) <==> Reserved(r, i) || i == Prepare(r, tag).id {
      MonsterReserves(r, tag, i);
    }
  }

  /** The label `l` stands on an id of the monster block that allocation does not know to be taken. */
  ghost predicate Exposed(r: Registry, l: string) {
    var m := LoadNumeric(r.catalog);
    l in m && FIRST <= m[l] <= LAST && !Reserved(r, m[l])
  }

  lemma ExposedHasNext(r: Registry, l: string)
    requires Exposed(r, l)
    ensures NextMonster(r, FIRST).Some? && NextMonster(r, FIRST).value <= LoadNumeric(r.catalog)[l]
  {
  }

  /** Either the new monster lands on the exposed id, or the label stays exposed and the next id is a later one. */
  lemma ClashOrCloser(r: Registry, next: Registry, tag: string, id: nat, l: string)
    requires Exposed(r, l) && NextMonster(r, FIRST) == Some(id) && Advances(r, next, tag, id)
    ensures LoadNumeric(next.catalog)[l] == LoadNumeric(r.catalog)[l]
    ensures LoadNumeric(r.catalog)[l] == id ==> !InjectiveMap(LoadNumeric(next.catalog))
    ensures LoadNumeric(r.catalog)[l] != id ==> Exposed(next, l) && NextMonster(next, FIRST).Some?
    ensures LoadNumeric(r.catalog)[l] != id ==> NextMonster(next, FIRST).value > id
  {
    var m := LoadNumeric(next.catalog);
    assert l != tag && m[l] == LoadNumeric(r.catalog)[l] && m[tag] == id;
    if m[l] != id { ExposedHasNext(next, l); }
  }

  lemma ApplyMonster(r: Registry, tag: string, rest: seq<Op>)
    requires Prepare(r, tag).Fresh?
    ensures ApplyAll(r, [MonsterOp(tag)] + rest) == ApplyAll(Prepare(r, tag).registry, rest)
  {
    var op := MonsterOp(tag);
    assert ([op] + rest)[1..] == rest && Apply(r, op) == Prepare(r, tag).registry;
  }

  /** Allocating on and on reaches the id that another label holds. */
  lemma {:induction false} ReachesClash(r: Registry, l: string, m: nat) returns (ops: seq<Op>)
    requires HasBlocks(r) && Exposed(r, l) && NextMonster(r, FIRST) == Some(m)
    ensures !InjectiveMap(LoadNumeric(ApplyAll(r, ops).catalog))
    decreases LAST - m
  {
    var tag := SomeMonsterFits(r);
    var next := Prepare(r, tag).registry;
    MonsterAdvances(r, tag);
    ClashOrCloser(r, next, tag, m, l);
    var rest := [];
    if LoadNumeric(r.catalog)[l] != m { rest := ReachesClash(next, l, NextMonster(next, FIRST).value); }
    ops := [MonsterOp(tag)] + rest;
    ApplyMonster(r, tag, rest);
  }

  lemma EmptyRun(r: Registry) returns (ops: seq<Op>)
    ensures ApplyAll(r, ops) == r
  {
    ops := [];
  }

  /**
   The labels of a registry stay on distinct ids over every run of item creates and monster allocations if and
   only if they are distinct now, and either every label with an id of the monster block is on a reserved one or
   no monster can be inserted at all.
   */
  lemma RunsStayDistinctIff(r: Registry)
    ensures (forall ops :: InjectiveMap(LoadNumeric(ApplyAll(r, ops).catalog))) <==>
      InjectiveMap(LoadNumeric(r.catalog)) && (Clear(r) || !HasBlocks(r))
  {
    var m := LoadNumeric(r.catalog);
    if InjectiveMap(m) && Clear(r) {
      forall ops ensures InjectiveMap(LoadNumeric(ApplyAll(r, ops).catalog)) { ClearRunsStayDistinct(r, ops); }
    } else if InjectiveMap(m) && !HasBlocks(r) {
      forall ops ensures InjectiveMap(LoadNumeric(ApplyAll(r, ops).catalog)) { BlocklessRunsStayDistinct(r, ops); }
    } else if HasBlocks(r) && !Clear(r) {
      var l :| l in m && FIRST <= m[l] <= LAST && !Reserved(r, m[l]);
      ExposedHasNext(r, l);
      var ops := ReachesClash(r, l, NextMonster(r, FIRST).value);
    } else {
      var ops := EmptyRun(r);
      assert !InjectiveMap(LoadNumeric(ApplyAll(r, ops).catalog));
    }
  }

  // Items beside monsters.

  lemma {:induction false} FoundArmIsItem(catalog: seq<Line>, l: string)
    requires FindArm(catalog, l).Some?
    ensures ItemConstant(FindArm(catalog, l).value)
  {
    var line := catalog[0];
    if !(line.Arm? && line.tag == l && ItemConstant(line.constant)) { FoundArmIsItem(catalog[1..], l); }
  }

  /** A line on a constant that is no item's decides no item lookup. */
  lemma ForeignLine(catalog: seq<Line>, k: nat, line: Line, l: string)
    requires k <= |catalog| && (line.Arm? ==> !ItemConstant(line.constant))
      && (line.Const? ==> !ItemConstant(line.name))
    ensures ContentIdOf(InsertAt(catalog, k, line), l) == ContentIdOf(catalog, l)
  {
    var a, b := catalog[..k], catalog[k..];
    assert catalog == a + b && [line][1..] == [];
    FindArmConcat(a, b, l);
    FindArmConcat(a + [line], b, l);
    FindArmConcat(a, [line], l);
    var arm := FindArm(catalog, l);
    if arm.Some? {
      FoundArmIsItem(catalog, l);
      FindConstConcat(a, b, arm.value);
      FindConstConcat(a + [line], b, arm.value);
      FindConstConcat(a, [line], arm.value);
    }
  }

  lemma MonsterLinesKeepItems(catalog: seq<Line>, tag: string, constant: string, id: nat, l: string)
    requires InsertMonster(catalog, tag, constant, id).Some? && !ItemConstant(constant)
    ensures ContentIdOf(InsertMonster(catalog, tag, constant, id).value, l) == ContentIdOf(catalog, l)
  {
    var a := BehindLast(catalog, IsMonsterConst);
    var one := InsertAt(catalog, a, Const(constant, RawId(id)));
    var b := BehindLast(one, IsMonsterArm);
    var two := InsertAt(one, b, Arm(tag, constant));
    var c := BehindLast(two, IsMonsterReverse);
    ForeignLine(catalog, a, Const(constant, RawId(id)), l);
    ForeignLine(one, b, Arm(tag, constant), l);
    ForeignLine(two, c, Reverse(constant, tag), l);
  }

  /** A monster allocation changes no item lookup. */
  lemma MonsterKeepsItems(r: Registry, tag: string, l: string)
    requires Prepare(r, tag).Fresh?
    ensures ContentIdOf(Prepare(r, tag).registry.catalog, l) == ContentIdOf(r.catalog, l)
  {
    FreshParts(r, tag);
    assert ConstantOf(tag)[0] == 'M';
    MonsterLinesKeepItems(r.catalog, tag, ConstantOf(tag), Prepare(r, tag).id, l);
  }

  /** Over any mixed run item labels resolve as before and stay on distinct ids. */
  lemma {:induction false} MixedRunsKeepItems(r: Registry, ops: seq<Op>)
    ensures forall l :: ContentIdOf(r.catalog, l).Registered? ==>
      ContentIdOf(ApplyAll(r, ops).catalog, l) == ContentIdOf(r.catalog, l)
    ensures InjectiveCatalog(r.catalog) ==> InjectiveCatalog(ApplyAll(r, ops).catalog)
    decreases |ops|
  {
    if ops != [] {
      var tag := ops[0].tag;
      if ops[0].ItemOp? && Create(r, tag).Ok? { CreateExtends(r, tag); }
      if ops[0].MonsterOp? && Prepare(r, tag).Fresh? {
        forall l ensures ContentIdOf(Prepare(r, tag).registry.catalog, l) == ContentIdOf(r.catalog, l) {
          MonsterKeepsItems(r, tag, l);
        }
      }
      MixedRunsKeepItems(Apply(r, ops[0]), ops[1..]);
    }
  }
}
