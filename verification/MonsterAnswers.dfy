/** What allocating a monster answers, told on the lines of both texts. */
module MonsterAnswers {
  import opened Basics
  import opened Catalog
  import opened CatalogAnswers
  import opened Monsters

  lemma MonsterNameTells(tag: string)
    ensures IsConstant(ConstantOf(tag), "MONSTER_", tag, "monster.")
    ensures NoWords(tag, "monster.") <==> ConstantOf(tag) == "MONSTER_"
  {
    var rest := RemovePrefix(tag, "monster.");
    StemTells(rest);
    var body := UpperAll(Joined(Words(rest)));
    assert ("MONSTER_" + body)[8..] == body && |"MONSTER_"| == 8;
  }

  predicate MonsterConstLine(line: Line) { line.Const? && Named(line.name, "MONSTER_") }

  predicate MonsterArmLine(line: Line) {
    line.Arm? && Labelled(line.tag, "monster.") && Named(line.constant, "MONSTER_")
  }

  predicate MonsterReverseLine(line: Line) {
    line.Reverse? && Labelled(line.tag, "monster.") && Named(line.constant, "MONSTER_")
  }

  predicate MonsterRowLine(e: Entry) { e.Row? && 10_000 <= e.id <= 19_999 && Labelled(e.tag, "monster.") }

  lemma MonsterKindsAgree()
    ensures forall l :: IsMonsterConst(l) <==> MonsterConstLine(l)
    ensures forall l :: IsMonsterArm(l) <==> MonsterArmLine(l)
    ensures forall l :: IsMonsterReverse(l) <==> MonsterReverseLine(l)
    ensures forall e :: IsMonsterRow(e) <==> MonsterRowLine(e)
  {
    forall name: string ensures MonsterConstant(name) <==> Named(name, "MONSTER_") {
      assert |"MONSTER_"| == 8;
    }
    forall tag: string ensures "monster." <= tag && |tag| > 8 <==> Labelled(tag, "monster.") {
      assert |"monster."| == 8;
    }
  }

  // Reading both texts.

  /** The last declaration of the constant: the one that counts. */
  predicate LastConst(catalog: seq<Line>, name: string, i: int) {
    0 <= i < |catalog| && catalog[i].Const? && catalog[i].name == name
    && forall j :: i < j < |catalog| ==> !(catalog[j].Const? && catalog[j].name == name)
  }

  ghost predicate Declares(catalog: seq<Line>, name: string, id: nat) {
    exists i :: LastConst(catalog, name, i) && Value(catalog[i].digits) == id
  }

  ghost predicate IsDeclared(catalog: seq<Line>, name: string) { exists id :: Declares(catalog, name, id) }

  lemma DeclaresNext(front: seq<Line>, line: Line, name: string, id: nat)
    ensures Declares(front + [line], name, id) <==>
      if line.Const? && line.name == name then Value(line.digits) == id else Declares(front, name, id)
  {
    var all := front + [line];
    forall i ensures LastConst(all, name, i) <==>
      if line.Const? && line.name == name then i == |front| else LastConst(front, name, i)
    {
      if LastConst(front, name, i) && !(line.Const? && line.name == name) {
        forall j | i < j < |all| ensures !(all[j].Const? && all[j].name == name) {
          if j < |front| { assert all[j] == front[j]; }
        }
      }
      if LastConst(all, name, i) && i < |front| {
        assert !(all[|front|].Const? && all[|front|].name == name);
        forall j | i < j < |front| ensures !(front[j].Const? && front[j].name == name) { assert all[j] == front[j]; }
      }
    }
    if line.Const? && line.name == name { assert LastConst(all, name, |front|); }
    if i :| LastConst(front, name, i) && Value(front[i].digits) == id { assert all[i] == front[i]; }
    if i :| LastConst(all, name, i) && Value(all[i].digits) == id { assert i < |front| ==> all[i] == front[i]; }
  }

  lemma {:induction false} ConstantsTell(catalog: seq<Line>, name: string, id: nat)
    ensures Declares(catalog, name, id) <==> name in Constants(catalog) && Constants(catalog)[name] == id
  {
    if catalog != [] {
      var n := |catalog| - 1;
      assert catalog == catalog[..n] + [catalog[n]];
      ConstantsTell(catalog[..n], name, id);
      DeclaresNext(catalog[..n], catalog[n], name, id);
      if catalog[n].Const? { ValueTells(catalog[n].digits); }
    }
  }

  predicate ArmFor(line: Line, tag: string) { line.Arm? && line.tag == tag }

  /** The label's last arm whose constant is declared. */
  ghost predicate LastArm(declared: seq<Line>, catalog: seq<Line>, tag: string, i: int) {
    0 <= i < |catalog| && ArmFor(catalog[i], tag) && IsDeclared(declared, catalog[i].constant)
    && forall j :: i < j < |catalog| && ArmFor(catalog[j], tag) ==> !IsDeclared(declared, catalog[j].constant)
  }

  ghost predicate ArmGives(declared: seq<Line>, catalog: seq<Line>, tag: string, id: nat) {
    exists i :: LastArm(declared, catalog, tag, i) && Declares(declared, catalog[i].constant, id)
  }

  /** The label is known by this id. */
  ghost predicate KnownAs(catalog: seq<Line>, tag: string, id: nat) { ArmGives(catalog, catalog, tag, id) }

  lemma ArmGivesNext(declared: seq<Line>, front: seq<Line>, line: Line, tag: string, id: nat)
    ensures ArmGives(declared, front + [line], tag, id) <==>
      if ArmFor(line, tag) && IsDeclared(declared, line.constant) then Declares(declared, line.constant, id)
      else ArmGives(declared, front, tag, id)
  {
    var all := front + [line];
    var last := ArmFor(line, tag) && IsDeclared(declared, line.constant);
    forall i ensures LastArm(declared, all, tag, i) <==> if last then i == |front| else LastArm(declared, front, tag, i)
    {
      if LastArm(declared, front, tag, i) && !last {
        forall j | i < j < |all| && ArmFor(all[j], tag) ensures !IsDeclared(declared, all[j].constant) {
          if j < |front| { assert all[j] == front[j]; }
        }
      }
      if LastArm(declared, all, tag, i) && i < |front| {
        assert all[|front|] == line;
        forall j | i < j < |front| && ArmFor(front[j], tag) ensures !IsDeclared(declared, front[j].constant) {
          assert all[j] == front[j];
        }
      }
    }
    if last { assert LastArm(declared, all, tag, |front|); }
    if i :| LastArm(declared, front, tag, i) && Declares(declared, front[i].constant, id) { assert all[i] == front[i]; }
    if i :| LastArm(declared, all, tag, i) && Declares(declared, all[i].constant, id) {
      assert i < |front| ==> all[i] == front[i];
    }
  }

  lemma {:induction false} LabelsTell(declared: seq<Line>, catalog: seq<Line>, tag: string, id: nat)
    ensures var labels := Labels(Constants(declared), catalog);
      ArmGives(declared, catalog, tag, id) <==> tag in labels && labels[tag] == id
  {
    if catalog != [] {
      var n := |catalog| - 1;
      var line := catalog[n];
      assert catalog == catalog[..n] + [line];
      LabelsTell(declared, catalog[..n], tag, id);
      ArmGivesNext(declared, catalog[..n], line, tag, id);
      if line.Arm? {
        DeclaredTells(declared, line.constant);
        ConstantsTell(declared, line.constant, id);
      }
    }
  }

  lemma DeclaredTells(catalog: seq<Line>, name: string)
    ensures IsDeclared(catalog, name) <==> name in Constants(catalog)
  {
    if name in Constants(catalog) { ConstantsTell(catalog, name, Constants(catalog)[name]); }
    if id :| Declares(catalog, name, id) { ConstantsTell(catalog, name, id); }
  }

  /** The map of labels holds what the lines say. */
  lemma NumericTells(catalog: seq<Line>, tag: string, id: nat)
    ensures KnownAs(catalog, tag, id) <==> tag in LoadNumeric(catalog) && LoadNumeric(catalog)[tag] == id
  {
    LabelsTell(catalog, catalog, tag, id);
  }

  predicate LastRow(ledger: seq<Entry>, tag: string, i: int) {
    0 <= i < |ledger| && MonsterRowLine(ledger[i]) && ledger[i].tag == tag
    && forall j :: i < j < |ledger| ==> !(MonsterRowLine(ledger[j]) && ledger[j].tag == tag)
  }

  /** The ledger's last monster row for the label has this id. */
  ghost predicate Recorded(ledger: seq<Entry>, tag: string, id: nat) {
    exists i :: LastRow(ledger, tag, i) && ledger[i].id == id
  }

  lemma RowIsMonster(e: Entry)
    ensures IsMonsterRow(e) <==> MonsterRowLine(e)
  {
    MonsterKindsAgree();
  }

  lemma {:induction false} RecordedTells(ledger: seq<Entry>, tag: string)
    ensures LedgerRow(ledger, tag).Some? ==> Recorded(ledger, tag, LedgerRow(ledger, tag).value)
    ensures LedgerRow(ledger, tag).None? ==> forall i :: !LastRow(ledger, tag, i)
    ensures LedgerRow(ledger, tag).None? ==>
      forall i :: 0 <= i < |ledger| ==> !(MonsterRowLine(ledger[i]) && ledger[i].tag == tag)
  {
    if ledger != [] {
      var n := |ledger| - 1;
      RowIsMonster(ledger[n]);
      RecordedTells(ledger[..n], tag);
      if MonsterRowLine(ledger[n]) && ledger[n].tag == tag {
        assert LastRow(ledger, tag, n);
      } else {
        forall i | 0 <= i < n ensures LastRow(ledger[..n], tag, i) ==> LastRow(ledger, tag, i) {
          if LastRow(ledger[..n], tag, i) {
            forall j | i < j < |ledger| ensures !(MonsterRowLine(ledger[j]) && ledger[j].tag == tag) {
              if j < n { assert ledger[j] == ledger[..n][j]; }
            }
          }
        }
        forall i | 0 <= i < n ensures ledger[i] == ledger[..n][i] {
        }
      }
    }
  }

  /** A monster constant or a monster row has the id. */
  predicate Taken(r: Registry, id: nat) {
    || (exists i :: 0 <= i < |r.catalog| && MonsterConstLine(r.catalog[i]) && Value(r.catalog[i].digits) == id)
    || (exists i :: 0 <= i < |r.ledger| && MonsterRowLine(r.ledger[i]) && r.ledger[i].id == id)
  }

  lemma TakenTells(r: Registry, id: nat)
    requires 10_001 <= id <= 19_999
    ensures Reserved(r, id) <==> Taken(r, id)
  {
    MonsterKindsAgree();
    if line :| line in r.catalog && IsMonsterConst(line) && ParseRaw(line.digits) == id {
      var i :| 0 <= i < |r.catalog| && r.catalog[i] == line;
      ValueTells(line.digits);
      assert MonsterConstLine(r.catalog[i]);
    }
    if e :| e in r.ledger && IsMonsterRow(e) && e.id == id {
      var i :| 0 <= i < |r.ledger| && r.ledger[i] == e;
      assert MonsterRowLine(r.ledger[i]);
    }
    if i :| 0 <= i < |r.catalog| && MonsterConstLine(r.catalog[i]) && Value(r.catalog[i].digits) == id {
      ValueTells(r.catalog[i].digits);
      assert r.catalog[i] in r.catalog && IsMonsterConst(r.catalog[i]);
    }
    if i :| 0 <= i < |r.ledger| && MonsterRowLine(r.ledger[i]) && r.ledger[i].id == id {
      assert r.ledger[i] in r.ledger && IsMonsterRow(r.ledger[i]);
    }
  }

  /** The least id of the monster block that is not taken. */
  predicate IsNext(r: Registry, id: nat) {
    10_001 <= id <= 19_999 && !Taken(r, id) && forall n :: 10_001 <= n < id ==> Taken(r, n)
  }

  predicate AllTaken(r: Registry) { forall n :: 10_001 <= n <= 19_999 ==> Taken(r, n) }

  lemma NextTells(r: Registry)
    ensures match NextMonster(r, FIRST)
      case Some(id) => IsNext(r, id)
      case None => AllTaken(r)
  {
    forall n | 10_001 <= n <= 19_999 ensures Reserved(r, n) <==> Taken(r, n) {
      TakenTells(r, n);
    }
  }

  /** The three lines of a label in place, each behind the last of its kind. */
  ghost predicate MonsterLines(before: seq<Line>, after: seq<Line>, tag: string, name: string, id: nat) {
    exists one, two, digits ::
      && Numeral(id, digits) && Behind(before, one, Const(name, digits), MonsterConstLine)
      && Behind(one, two, Arm(tag, name), MonsterArmLine) && Behind(two, after, Reverse(name, tag), MonsterReverseLine)
  }

  predicate LacksBlock(r: Registry) {
    || NoneOf(r.catalog, MonsterConstLine) || NoneOf(r.catalog, MonsterArmLine)
    || NoneOf(r.catalog, MonsterReverseLine) || NoneOf(r.ledger, MonsterRowLine)
  }

  lemma MonsterLinesTell(catalog: seq<Line>, tag: string, name: string, id: nat)
    ensures match InsertMonster(catalog, tag, name, id)
      case Some(after) => MonsterLines(catalog, after, tag, name, id)
      case None =>
        NoneOf(catalog, MonsterConstLine) || NoneOf(catalog, MonsterArmLine) || NoneOf(catalog, MonsterReverseLine)
  {
    MonsterKindsAgree();
    RawIdTells(id);
    var x, y, z := Const(name, RawId(id)), Arm(tag, name), Reverse(name, tag);
    InsertTells(catalog, IsMonsterConst, MonsterConstLine, x);
    var one := InsertAfterLast(catalog, IsMonsterConst, x);
    if one.Some? {
      OtherKind(catalog, one.value, x, MonsterConstLine, MonsterArmLine);
      OtherKind(catalog, one.value, x, MonsterConstLine, MonsterReverseLine);
      InsertTells(one.value, IsMonsterArm, MonsterArmLine, y);
      var two := InsertAfterLast(one.value, IsMonsterArm, y);
      if two.Some? {
        OtherKind(one.value, two.value, y, MonsterArmLine, MonsterReverseLine);
        InsertTells(two.value, IsMonsterReverse, MonsterReverseLine, z);
      }
    }
  }

  predicate LowerOrDigit(c: char) { 'a' <= c <= 'z' || '0' <= c <= '9' }

  /** `monster.`, a small letter or digit, and then small letters, digits, dots, underscores and hyphens. */
  predicate MonsterForm(tag: string) {
    && Labelled(tag, "monster.") && LowerOrDigit(tag[|"monster."|])
    && forall i :: |"monster."| < i < |tag| ==> LowerOrDigit(tag[i]) || tag[i] in "._-"
  }

  lemma FormTells(tag: string)
    ensures MonsterId(tag) <==> MonsterForm(tag)
    ensures MonsterForm(tag) ==> !NoWords(tag, "monster.")
  {
    assert |"monster."| == 8;
    assert forall c: char :: c in "._-" <==> c == '.' || c == '_' || c == '-';
    if MonsterForm(tag) { HasWords(tag[8..], 0); }
  }

  lemma {:induction false} HasWords(s: string, i: nat)
    requires i < |s| && WordPart(s[i])
    ensures Words(s) != []
  {
    if i < |s| - 1 { HasWords(s[..|s| - 1], i); }
  }

  /** What a fresh allocation does to both texts. */
  ghost predicate Allocates(r: Registry, tag: string, after: Registry, id: nat) {
    exists name :: IsConstant(name, "MONSTER_", tag, "monster.") && AllocatesAs(r, tag, name, after, id)
  }

  ghost predicate AllocatesAs(r: Registry, tag: string, name: string, after: Registry, id: nat) {
    && !SomeHasWord(r.catalog, name) && MonsterLines(r.catalog, after.catalog, tag, name, id)
    && Behind(r.ledger, after.ledger, Row(id, tag, "active"), MonsterRowLine)
  }

  ghost predicate Unknown(r: Registry, tag: string) {
    (forall id :: !KnownAs(r.catalog, tag, id)) && forall id :: !Recorded(r.ledger, tag, id)
  }

  /** Preparing an allocation: what it answers for a known label, why it refuses, and what it does otherwise. */
  lemma PrepareTells(r: Registry, tag: string)
    ensures match Prepare(r, tag)
      case Existing(id) => KnownAs(r.catalog, tag, id)
      case Fresh(id, after) => Unknown(r, tag) && MonsterForm(tag) && IsNext(r, id) && Allocates(r, tag, after, id)
      case Refused(LedgerOnly(id)) => (forall n :: !KnownAs(r.catalog, tag, n)) && Recorded(r.ledger, tag, id)
      case Refused(BlockExhausted) => Unknown(r, tag) && AllTaken(r)
      case Refused(BadId) => Unknown(r, tag) && !MonsterForm(tag)
      case Refused(ConstantTaken) =>
        && Unknown(r, tag) && MonsterForm(tag)
        && exists name :: IsConstant(name, "MONSTER_", tag, "monster.") && SomeHasWord(r.catalog, name)
      case Refused(NoBlock) => Unknown(r, tag) && MonsterForm(tag) && LacksBlock(r)
      case Refused(EmptyConstant) => false
  {
    forall id: nat ensures KnownAs(r.catalog, tag, id) <==>
        tag in LoadNumeric(r.catalog) && LoadNumeric(r.catalog)[tag] == id
    {
      NumericTells(r.catalog, tag, id);
    }
    RecordedTells(r.ledger, tag);
    FormTells(tag);
    if tag !in LoadNumeric(r.catalog) && LedgerRow(r.ledger, tag).None? { NextTells(r); }
    if NextMonster(r, FIRST).Some? && MonsterId(tag) { BothTell(r, tag, NextMonster(r, FIRST).value); }
  }

  lemma BothTell(r: Registry, tag: string, id: nat)
    requires !NoWords(tag, "monster.")
    ensures ConstantOf(tag) != "MONSTER_" && IsConstant(ConstantOf(tag), "MONSTER_", tag, "monster.")
    ensures match InsertBoth(r, tag, ConstantOf(tag), id)
      case Fresh(n, after) => n == id && AllocatesAs(r, tag, ConstantOf(tag), after, id)
      case Refused(ConstantTaken) => SomeHasWord(r.catalog, ConstantOf(tag))
      case Refused(NoBlock) => LacksBlock(r)
      case _ => false
  {
    var name := ConstantOf(tag);
    MonsterNameTells(tag);
    MentionTells(r.catalog, name, tag);
    MonsterLinesTell(r.catalog, tag, name, id);
    LedgerLineTells(r.ledger, Row(id, tag, "active"));
  }

  lemma LedgerLineTells(ledger: seq<Entry>, row: Entry)
    ensures match InsertAfterLast(ledger, IsMonsterRow, row)
      case Some(after) => Behind(ledger, after, row, MonsterRowLine)
      case None => NoneOf(ledger, MonsterRowLine)
  {
    MonsterKindsAgree();
    InsertTells(ledger, IsMonsterRow, MonsterRowLine, row);
  }
}
