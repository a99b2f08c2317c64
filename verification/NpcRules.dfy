/** The rules of NPC documents, told on the JSON itself: what the validator passes is what follows them. */
module NpcRules {
  import opened Basics
  import opened NpcDocument

  /** The object has the field. */
  predicate Holds(v: Json, key: string) { v.Obj? && key in v.fields }

  // The rules of documents.

  /** A text with something in it that is not white space. */
  predicate Worded(v: Json) {
    v.Str? && exists i ::
      0 <= i < |v.s| && !Space(v.s[i]) && v.s[i] !in ['\U{1C}', '\U{1D}', '\U{1E}', '\U{1F}', '\U{85}']
  }

  predicate NpcId(v: Json) { v.Str? && |v.s| >= 4 && v.s[..4] == "npc." }

  predicate ItemId(v: Json) { v.Str? && |v.s| >= 5 && v.s[..5] == "item." }

  /** A fact's name, which is not `npc.….met`. */
  predicate FactName(v: Json) { Worded(v) && !(NpcId(v) && v.s[|v.s| - 4..] == ".met") }

  /** Of the five keys the object has this one. */
  predicate OnlyOf(v: Json, key: string, a: string, b: string, c: string, d: string) {
    Holds(v, key) && a !in v.fields && b !in v.fields && c !in v.fields && d !in v.fields
  }

  predicate HeardRule(reference: Json) {
    && Holds(reference, "npc") && NpcId(reference.fields["npc"])
    && Holds(reference, "beat") && Worded(reference.fields["beat"])
  }

  predicate ConditionRules(v: Json) {
    && Holds(v, "equals") && v.fields["equals"].Bool?
    && (|| (OnlyOf(v, "fact", "npc_met", "dialogue_heard", "item_owned", "item_equipped") && FactName(v.fields["fact"]))
        || (OnlyOf(v, "npc_met", "fact", "dialogue_heard", "item_owned", "item_equipped") && NpcId(v.fields["npc_met"]))
        || (OnlyOf(v, "dialogue_heard", "fact", "npc_met", "item_owned", "item_equipped")
            && HeardRule(v.fields["dialogue_heard"]))
        || (OnlyOf(v, "item_owned", "fact", "npc_met", "dialogue_heard", "item_equipped")
            && ItemId(v.fields["item_owned"]))
        || (OnlyOf(v, "item_equipped", "fact", "npc_met", "dialogue_heard", "item_owned")
            && ItemId(v.fields["item_equipped"])))
  }

  predicate ItemRules(data: Json) {
    && Holds(data, "item") && ItemId(data.fields["item"])
    && Holds(data, "quantity") && data.fields["quantity"].Int? && data.fields["quantity"].n >= 1
  }

  predicate FactRules(data: Json) {
    && Holds(data, "fact") && FactName(data.fields["fact"])
    && Holds(data, "value") && data.fields["value"].Bool?
  }

  predicate ActionRules(v: Json) {
    || (OnlyOf(v, "set_fact", "mark_npc_met", "give_item", "remove_item", "grant_ability")
        && FactRules(v.fields["set_fact"]))
    || (OnlyOf(v, "mark_npc_met", "set_fact", "give_item", "remove_item", "grant_ability")
        && NpcId(v.fields["mark_npc_met"]))
    || (OnlyOf(v, "give_item", "set_fact", "mark_npc_met", "remove_item", "grant_ability")
        && ItemRules(v.fields["give_item"]))
    || (OnlyOf(v, "remove_item", "set_fact", "mark_npc_met", "give_item", "grant_ability")
        && ItemRules(v.fields["remove_item"]))
    || (OnlyOf(v, "grant_ability", "set_fact", "mark_npc_met", "give_item", "remove_item")
        && Holds(v.fields["grant_ability"], "ability") && Worded(v.fields["grant_ability"].fields["ability"]))
  }

  lemma WordedIsFilled(v: Json)
    ensures Worded(v) <==> Filled(v)
  {
    if v.Str? {
      forall i | 0 <= i < |v.s|
        ensures Whitespace(v.s[i]) <==>
          Space(v.s[i]) || v.s[i] in ['\U{1C}', '\U{1D}', '\U{1E}', '\U{1F}', '\U{85}']
      {
      }
    }
  }

  lemma FactNameIsGood(v: Json)
    ensures FactName(v) <==> Filled(v) && !EncodesMet(v)
  {
    WordedIsFilled(v);
    PrefixIsTaken(v);
  }

  lemma PrefixIsTaken(v: Json)
    ensures NpcId(v) <==> StartsWith(v, "npc.")
    ensures ItemId(v) <==> StartsWith(v, "item.")
  {
  }

  lemma SupportedNext(v: Json, k: string, rest: seq<string>)
    ensures Supported(v, [k] + rest) == (if Holds(v, k) then [k] else []) + Supported(v, rest)
  {
    assert ([k] + rest)[1..] == rest;
  }

  /** Counting the supported keys: there is exactly one exactly when one is there and the other four are not. */
  lemma SupportedFive(v: Json, a: string, b: string, c: string, d: string, e: string)
    requires v.Obj?
    ensures var kinds := Supported(v, [a, b, c, d, e]);
      && (|kinds| == 1 <==> || OnlyOf(v, a, b, c, d, e) || OnlyOf(v, b, a, c, d, e) || OnlyOf(v, c, a, b, d, e)
                            || OnlyOf(v, d, a, b, c, e) || OnlyOf(v, e, a, b, c, d))
      && (OnlyOf(v, a, b, c, d, e) ==> kinds == [a]) && (OnlyOf(v, b, a, c, d, e) ==> kinds == [b])
      && (OnlyOf(v, c, a, b, d, e) ==> kinds == [c]) && (OnlyOf(v, d, a, b, c, e) ==> kinds == [d])
      && (OnlyOf(v, e, a, b, c, d) ==> kinds == [e])
  {
    assert [a, b, c, d, e] == [a] + ([b] + ([c] + ([d] + ([e] + []))));
    SupportedNext(v, a, [b] + ([c] + ([d] + ([e] + []))));
    SupportedNext(v, b, [c] + ([d] + ([e] + [])));
    SupportedNext(v, c, [d] + ([e] + []));
    SupportedNext(v, d, [e] + []);
    SupportedNext(v, e, []);
  }

  /** The texts of the keys differ. */
  lemma ConditionKeys()
    ensures "fact" != "npc_met" && "fact" != "dialogue_heard" && "fact" != "item_owned" && "fact" != "item_equipped"
    ensures "npc_met" != "dialogue_heard" && "npc_met" != "item_owned" && "npc_met" != "item_equipped"
    ensures "dialogue_heard" != "item_owned" && "dialogue_heard" != "item_equipped" && "item_owned" != "item_equipped"
  {
    assert |"fact"| == 4 && |"npc_met"| == 7 && |"dialogue_heard"| == 14 && |"item_owned"| == 10;
    assert |"item_equipped"| == 13;
  }

  lemma ActionKeys()
    ensures "set_fact" != "mark_npc_met" && "set_fact" != "give_item" && "set_fact" != "remove_item"
      && "set_fact" != "grant_ability"
    ensures "mark_npc_met" != "give_item" && "mark_npc_met" != "remove_item" && "mark_npc_met" != "grant_ability"
    ensures "give_item" != "remove_item" && "give_item" != "grant_ability" && "remove_item" != "grant_ability"
  {
    assert |"set_fact"| == 8 && |"mark_npc_met"| == 12 && |"give_item"| == 9 && |"remove_item"| == 11;
    assert |"grant_ability"| == 13;
  }

  /** What the one kind of condition asks of its reference. */
  predicate ReferenceRule(kind: string, reference: Json) {
    if kind == "fact" then FactName(reference)
    else if kind == "npc_met" then NpcId(reference)
    else if kind == "dialogue_heard" then HeardRule(reference)
    else ItemId(reference)
  }

  lemma HeardRules(reference: Json)
    ensures GoodReference("dialogue_heard", reference) <==> HeardRule(reference)
  {
    PrefixIsTaken(Get(reference, "npc", Null));
    WordedIsFilled(Get(reference, "beat", Null));
  }

  lemma ReferenceRules(kind: string, reference: Json)
    ensures GoodReference(kind, reference) <==> ReferenceRule(kind, reference)
  {
    ConditionKeys();
    if kind == "fact" {
      FactNameIsGood(reference);
    } else if kind == "dialogue_heard" {
      HeardRules(reference);
    } else {
      PrefixIsTaken(reference);
    }
  }

  lemma OneConditionRule(v: Json, kind: string)
    requires v.Obj? && Supported(v, CONDITIONS) == [kind] && Holds(v, kind)
    ensures GoodCondition(v) <==> Holds(v, "equals") && v.fields["equals"].Bool? && ReferenceRule(kind, v.fields[kind])
  {
    ReferenceRules(kind, v.fields[kind]);
  }

  /** The conditions the validator passes are those that follow the rules. */
  lemma ConditionIffRules(v: Json)
    ensures GoodCondition(v) <==> ConditionRules(v)
  {
    if v.Obj? {
      ConditionKeys();
      SupportedFive(v, "fact", "npc_met", "dialogue_heard", "item_owned", "item_equipped");
      assert CONDITIONS == ["fact", "npc_met", "dialogue_heard", "item_owned", "item_equipped"];
      if OnlyOf(v, "fact", "npc_met", "dialogue_heard", "item_owned", "item_equipped") {
        OneConditionRule(v, "fact");
      } else if OnlyOf(v, "npc_met", "fact", "dialogue_heard", "item_owned", "item_equipped") {
        OneConditionRule(v, "npc_met");
      } else if OnlyOf(v, "dialogue_heard", "fact", "npc_met", "item_owned", "item_equipped") {
        OneConditionRule(v, "dialogue_heard");
      } else if OnlyOf(v, "item_owned", "fact", "npc_met", "dialogue_heard", "item_equipped") {
        OneConditionRule(v, "item_owned");
      } else if OnlyOf(v, "item_equipped", "fact", "npc_met", "dialogue_heard", "item_owned") {
        OneConditionRule(v, "item_equipped");
      }
    }
  }

  predicate DataRule(kind: string, data: Json) {
    if kind == "set_fact" then FactRules(data)
    else if kind == "mark_npc_met" then NpcId(data)
    else if kind == "grant_ability" then Holds(data, "ability") && Worded(data.fields["ability"])
    else ItemRules(data)
  }

  lemma DataRules(kind: string, data: Json)
    ensures GoodActionData(kind, data) <==> DataRule(kind, data)
  {
    FactNameIsGood(Get(data, "fact", Null));
    PrefixIsTaken(data);
    PrefixIsTaken(Get(data, "item", Null));
    WordedIsFilled(Get(data, "ability", Null));
  }

  lemma OneActionRule(v: Json, kind: string)
    requires v.Obj? && Supported(v, ACTIONS) == [kind] && Holds(v, kind)
    ensures GoodAction(v) <==> DataRule(kind, v.fields[kind])
  {
    DataRules(kind, v.fields[kind]);
  }

  /** The actions the validator passes are those that follow the rules. */
  lemma ActionIffRules(v: Json)
    ensures GoodAction(v) <==> ActionRules(v)
  {
    if v.Obj? {
      ActionKeys();
      SupportedFive(v, "set_fact", "mark_npc_met", "give_item", "remove_item", "grant_ability");
      assert ACTIONS == ["set_fact", "mark_npc_met", "give_item", "remove_item", "grant_ability"];
      if OnlyOf(v, "set_fact", "mark_npc_met", "give_item", "remove_item", "grant_ability") {
        OneActionRule(v, "set_fact");
      } else if OnlyOf(v, "mark_npc_met", "set_fact", "give_item", "remove_item", "grant_ability") {
        OneActionRule(v, "mark_npc_met");
      } else if OnlyOf(v, "give_item", "set_fact", "mark_npc_met", "remove_item", "grant_ability") {
        OneActionRule(v, "give_item");
      } else if OnlyOf(v, "remove_item", "set_fact", "mark_npc_met", "give_item", "grant_ability") {
        OneActionRule(v, "remove_item");
      } else if OnlyOf(v, "grant_ability", "set_fact", "mark_npc_met", "give_item", "remove_item") {
        OneActionRule(v, "grant_ability");
      }
    }
  }

  // Whole documents.

  /** The field is a list where it is there at all. */
  predicate Listing(v: Json, key: string) { Holds(v, key) ==> v.fields[key].Arr? }

  function Items(v: Json, key: string): seq<Json> {
    if Holds(v, key) && v.fields[key].Arr? then v.fields[key].items else []
  }

  predicate Named(v: Json) { Holds(v, "id") && Worded(v.fields["id"]) }

  predicate SameName(a: Json, b: Json) { Holds(a, "id") && Holds(b, "id") && a.fields["id"] == b.fields["id"] }

  predicate DistinctNames(list: seq<Json>) { forall i, j :: 0 <= i < j < |list| ==> !SameName(list[i], list[j]) }

  predicate ChoiceRules(v: Json) {
    Named(v) && Listing(v, "actions")
    && forall i :: 0 <= i < |Items(v, "actions")| ==> ActionRules(Items(v, "actions")[i])
  }

  predicate BeatRules(v: Json) {
    && Named(v) && Holds(v, "entry") && v.fields["entry"].Bool? && Holds(v, "priority") && v.fields["priority"].Int?
    && Listing(v, "conditions") && Listing(v, "choices")
    && (forall i :: 0 <= i < |Items(v, "conditions")| ==> ConditionRules(Items(v, "conditions")[i]))
    && (forall i :: 0 <= i < |Items(v, "choices")| ==> ChoiceRules(Items(v, "choices")[i]))
    && DistinctNames(Items(v, "choices"))
  }

  /** The pool of a beat, if it has one, is one of the five. */
  predicate PoolRule(v: Json) {
    Holds(v, "pool") && v.fields["pool"] != Null ==>
      v.fields["pool"] in [Str("mandatory"), Str("once"), Str("repeatable"), Str("rare"), Str("lore")]
  }

  /** Where a choice leads, if anywhere, there is a beat. */
  predicate NextRule(beats: seq<Json>, choice: Json) {
    Holds(choice, "next") && choice.fields["next"] != Null ==>
      choice.fields["next"].Str?
      && exists i :: 0 <= i < |beats| && Holds(beats[i], "id") && beats[i].fields["id"] == choice.fields["next"]
  }

  predicate NextRules(beats: seq<Json>, beat: Json) {
    forall i :: 0 <= i < |Items(beat, "choices")| ==> NextRule(beats, Items(beat, "choices")[i])
  }

  /** The text is written somewhere in the value, as a text or as a key. */
  ghost predicate Occurs(v: Json, text: string)
    decreases v
  {
    match v
    case Str(s) => s == text
    case Arr(items) => exists i :: 0 <= i < |items| && Occurs(items[i], text)
    case Obj(fields) => text in fields || exists k :: k in fields && Occurs(fields[k], text)
    case _ => false
  }

  predicate IsHebrew(text: string) { exists i :: 0 <= i < |text| && 0x590 <= text[i] as int <= 0x5FF }

  ghost predicate English(v: Json) { forall text :: Occurs(v, text) ==> !IsHebrew(text) }

  predicate HeaderRules(v: Json) {
    && Holds(v, "schema_version") && v.fields["schema_version"].Int? && v.fields["schema_version"].n >= 1
    && Holds(v, "id") && NpcId(v.fields["id"])
    && (Holds(v, "design") ==> v.fields["design"] == Null || v.fields["design"].Obj?)
    && (Holds(v, "interaction") ==> v.fields["interaction"] == Null || v.fields["interaction"].Obj?)
  }

  function BeatList(v: Json): seq<Json> {
    if Holds(v, "interaction") then Items(v.fields["interaction"], "beats") else []
  }

  ghost predicate DocumentRules(v: Json) {
    && HeaderRules(v) && English(v)
    && (Holds(v, "interaction") ==> Listing(v.fields["interaction"], "beats"))
    && DistinctNames(BeatList(v))
    && forall i :: 0 <= i < |BeatList(v)| ==>
         BeatRules(BeatList(v)[i]) && PoolRule(BeatList(v)[i]) && NextRules(BeatList(v), BeatList(v)[i])
  }

  lemma ItemsAreGot(v: Json, key: string)
    ensures v.Obj? ==> (Listing(v, key) <==> Get(v, key, NO_ITEMS).Arr?)
    ensures Get(v, key, NO_ITEMS).Arr? ==> Items(v, key) == Get(v, key, NO_ITEMS).items
  {
  }

  lemma NamedIsId(v: Json)
    ensures Named(v) <==> v.Obj? && Filled(IdOf(v))
    ensures Holds(v, "id") ==> v.fields["id"] == IdOf(v)
  {
    WordedIsFilled(IdOf(v));
  }

  lemma NamesDiffer(list: seq<Json>)
    requires forall i :: 0 <= i < |list| ==> Named(list[i])
    ensures DistinctNames(list) <==> forall i :: 0 <= i < |list| ==> FreshId(list, i)
  {
    forall i | 0 <= i < |list| ensures Holds(list[i], "id") && list[i].fields["id"] == IdOf(list[i]) {
      NamedIsId(list[i]);
    }
    if forall i :: 0 <= i < |list| ==> FreshId(list, i) {
      forall i, j | 0 <= i < j < |list| ensures !SameName(list[i], list[j]) {
        assert FreshId(list, j);
      }
    }
  }

  lemma ChoiceIffRules(v: Json)
    ensures GoodChoice(v) <==> ChoiceRules(v)
  {
    NamedIsId(v);
    ItemsAreGot(v, "actions");
    forall i | 0 <= i < |Items(v, "actions")|
      ensures GoodAction(Items(v, "actions")[i]) <==> ActionRules(Items(v, "actions")[i])
    {
      ActionIffRules(Items(v, "actions")[i]);
    }
  }

  lemma ChoicesIffRules(choices: seq<Json>)
    ensures GoodChoices(choices) <==>
      (forall i :: 0 <= i < |choices| ==> ChoiceRules(choices[i])) && DistinctNames(choices)
  {
    forall i | 0 <= i < |choices| ensures GoodChoice(choices[i]) <==> ChoiceRules(choices[i]) {
      ChoiceIffRules(choices[i]);
    }
    if forall i :: 0 <= i < |choices| ==> ChoiceRules(choices[i]) { NamesDiffer(choices); }
  }

  lemma ConditionsIffRules(conditions: seq<Json>)
    ensures (forall i :: 0 <= i < |conditions| ==> GoodCondition(conditions[i])) <==>
      (forall i :: 0 <= i < |conditions| ==> ConditionRules(conditions[i]))
  {
    forall i | 0 <= i < |conditions| ensures GoodCondition(conditions[i]) <==> ConditionRules(conditions[i]) {
      ConditionIffRules(conditions[i]);
    }
  }

  lemma BeatIffRules(v: Json)
    ensures GoodBeat(v) <==> BeatRules(v)
  {
    NamedIsId(v);
    ItemsAreGot(v, "conditions");
    ItemsAreGot(v, "choices");
    ConditionsIffRules(Items(v, "conditions"));
    ChoicesIffRules(Items(v, "choices"));
  }

  lemma PoolIffRule(v: Json)
    requires v.Obj?
    ensures GoodPool(v) <==> PoolRule(v)
  {
    assert POOLS == ["mandatory", "once", "repeatable", "rare", "lore"];
  }

  lemma NextIffRules(beats: seq<Json>, beat: Json)
    requires forall i :: 0 <= i < |beats| ==> Named(beats[i])
    requires BeatRules(beat)
    ensures GoodNexts(beats, Get(beat, "choices", NO_ITEMS).items) <==> NextRules(beats, beat)
  {
    ItemsAreGot(beat, "choices");
    forall i | 0 <= i < |beats| ensures Holds(beats[i], "id") && beats[i].fields["id"] == IdOf(beats[i]) {
      NamedIsId(beats[i]);
    }
    forall i | 0 <= i < |Items(beat, "choices")|
      ensures GoodNext(beats, Items(beat, "choices")[i]) <==> NextRule(beats, Items(beat, "choices")[i])
    {
      NextIffRule(beats, Items(beat, "choices")[i]);
    }
  }

  lemma NextIffRule(beats: seq<Json>, choice: Json)
    requires choice.Obj? && forall i :: 0 <= i < |beats| ==>
      Holds(beats[i], "id") && beats[i].fields["id"] == IdOf(beats[i])
    ensures GoodNext(beats, choice) <==> NextRule(beats, choice)
  {
  }

  lemma {:induction false} HebrewOccurs(v: Json)
    ensures ContainsHebrew(v) <==> !English(v)
    decreases v
  {
    match v {
      case Str(s) => assert Occurs(v, s);
      case Arr(items) =>
        forall i | 0 <= i < |items| ensures ContainsHebrew(items[i]) <==> !English(items[i]) { HebrewOccurs(items[i]); }
        if ContainsHebrew(v) {
          var i :| 0 <= i < |items| && ContainsHebrew(items[i]);
          var text :| Occurs(items[i], text) && IsHebrew(text);
          assert Occurs(v, text);
        }
      case Obj(fields) =>
        forall k | k in fields ensures ContainsHebrew(fields[k]) <==> !English(fields[k]) { HebrewOccurs(fields[k]); }
        if ContainsHebrew(v) {
          var k :| k in fields && (HebrewText(k) || ContainsHebrew(fields[k]));
          if HebrewText(k) {
            assert Occurs(v, k);
          } else {
            var text :| Occurs(fields[k], text) && IsHebrew(text);
            assert Occurs(v, text);
          }
        }
      case _ =>
    }
  }

  lemma HeaderIffRules(v: Json)
    ensures GoodHeader(v) <==> HeaderRules(v)
  {
    PrefixIsTaken(IdOf(v));
    if NpcId(IdOf(v)) { assert IdOf(v).s[0] == 'n' && !Whitespace(IdOf(v).s[0]); }
  }

  lemma BeatsIffRules(beats: seq<Json>)
    ensures GoodBeats(beats) <==>
      (forall i :: 0 <= i < |beats| ==> BeatRules(beats[i])) && DistinctNames(beats)
  {
    forall i | 0 <= i < |beats| ensures GoodBeat(beats[i]) <==> BeatRules(beats[i]) {
      BeatIffRules(beats[i]);
    }
    if forall i :: 0 <= i < |beats| ==> BeatRules(beats[i]) { NamesDiffer(beats); }
  }

  lemma BeatsAreListed(v: Json)
    requires HeaderRules(v)
    ensures BeatsOf(v).Arr? <==> (Holds(v, "interaction") ==> Listing(v.fields["interaction"], "beats"))
    ensures BeatsOf(v).Arr? ==> BeatsOf(v).items == BeatList(v)
  {
    if Holds(v, "interaction") { ItemsAreGot(v.fields["interaction"], "beats"); }
  }

  /** The documents the validator passes are those that follow the rules. */
  lemma DocumentIffRules(v: Json)
    ensures ValidDocument(v) <==> DocumentRules(v)
  {
    HeaderIffRules(v);
    HebrewOccurs(v);
    if HeaderRules(v) {
      var beats := BeatList(v);
      BeatsAreListed(v);
      BeatsIffRules(beats);
      if forall i :: 0 <= i < |beats| ==> BeatRules(beats[i]) {
        forall i | 0 <= i < |beats|
          ensures GoodNexts(beats, Get(beats[i], "choices", NO_ITEMS).items) <==> NextRules(beats, beats[i])
          ensures GoodPool(beats[i]) <==> PoolRule(beats[i])
        {
          NextIffRules(beats, beats[i]);
          PoolIffRule(beats[i]);
        }
      }
    }
  }
}
