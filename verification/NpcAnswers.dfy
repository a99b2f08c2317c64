/** What selection, actions and progress answer on documents that follow the rules, told on the JSON itself. */
module NpcAnswers {
  import opened Basics
  import opened NpcDocument
  import opened NpcRules
  import opened NpcSelection
  import NpcProgress

  // The state of the preview.

  predicate Shaped(state: Json) {
    && state.Obj? && (Holds(state, "facts") ==> state.fields["facts"].Obj?)
    && Listing(state, "npc_met") && Listing(state, "dialogue_heard") && Listing(state, "item_owned")
    && Listing(state, "item_equipped") && Listing(state, "ability_granted")
  }

  predicate Falsy(v: Json) { v in [Null, Bool(false), Int(0), Float(0.0), Str(""), Arr([]), Obj(map[])] }

  predicate FactIs(state: Json, name: string) {
    Holds(state, "facts") && Holds(state.fields["facts"], name) && !Falsy(state.fields["facts"].fields[name])
  }

  predicate IsEntry(v: Json, npc: Json, beat: Json) {
    Holds(v, "npc") && v.fields["npc"] == npc && Holds(v, "beat") && v.fields["beat"] == beat
  }

  predicate HasHeard(state: Json, npc: Json, beat: Json) {
    exists i :: 0 <= i < |Items(state, "dialogue_heard")| && IsEntry(Items(state, "dialogue_heard")[i], npc, beat)
  }

  /** What the condition asks about is so. */
  predicate IsSo(c: Json, state: Json) {
    || (Holds(c, "fact") && c.fields["fact"].Str? && FactIs(state, c.fields["fact"].s))
    || (Holds(c, "npc_met") && c.fields["npc_met"] in Items(state, "npc_met"))
    || (Holds(c, "dialogue_heard")
        && Holds(c.fields["dialogue_heard"], "npc") && Holds(c.fields["dialogue_heard"], "beat")
        && HasHeard(state, c.fields["dialogue_heard"].fields["npc"], c.fields["dialogue_heard"].fields["beat"]))
    || (Holds(c, "item_owned") && c.fields["item_owned"] in Items(state, "item_owned"))
    || (Holds(c, "item_equipped") && c.fields["item_equipped"] in Items(state, "item_equipped"))
  }

  predicate IsMet(c: Json, state: Json) { Holds(c, "equals") && c.fields["equals"] == Bool(IsSo(c, state)) }

  lemma ShapedIsWellShaped(state: Json)
    ensures Shaped(state) <==> WellShaped(state)
  {
    ItemsAreGot(state, "npc_met");
    ItemsAreGot(state, "dialogue_heard");
    ItemsAreGot(state, "item_owned");
    ItemsAreGot(state, "item_equipped");
    ItemsAreGot(state, "ability_granted");
  }

  lemma HeardIsGot(state: Json, npc: Json, beat: Json)
    requires Shaped(state) && npc.Str? && beat.Str?
    ensures ContainsHeard(state, npc, beat) == Ok(HasHeard(state, npc, beat))
  {
    ItemsAreGot(state, "dialogue_heard");
    var items := Items(state, "dialogue_heard");
    forall i | 0 <= i < |items| ensures IsHeard(items[i], npc, beat) <==> IsEntry(items[i], npc, beat) {
    }
  }

  /** A condition that follows the rules matches exactly when what it asks about is as it says. */
  lemma ConditionTells(c: Json, state: Json)
    requires ConditionRules(c) && Shaped(state)
    ensures ConditionMatches(c, state) == Ok(IsMet(c, state))
  {
    ConditionKeys();
    ItemsAreGot(state, "npc_met");
    ItemsAreGot(state, "item_owned");
    ItemsAreGot(state, "item_equipped");
    if Holds(c, "fact") {
      assert FactName(c.fields["fact"]);
      FactIsGot(state, c.fields["fact"].s);
    } else if Holds(c, "dialogue_heard") {
      var reference := c.fields["dialogue_heard"];
      assert HeardRule(reference);
      HeardIsGot(state, reference.fields["npc"], reference.fields["beat"]);
    }
  }

  lemma FactIsGot(state: Json, name: string)
    requires Shaped(state)
    ensures FactIs(state, name) <==> Truthy(Get(Get(state, "facts", NO_FIELDS), name, Bool(false)))
  {
  }

  // Selection.

  predicate InPool(beat: Json, pool: string) { Holds(beat, "pool") && beat.fields["pool"] == Str(pool) }

  /** An entry all of whose conditions are met, not rare, and not a one-shot that has been heard. */
  predicate TakesPart(document: Json, beat: Json, state: Json) {
    && Holds(beat, "entry") && beat.fields["entry"] == Bool(true)
    && (forall i :: 0 <= i < |Items(beat, "conditions")| ==> IsMet(Items(beat, "conditions")[i], state))
    && !InPool(beat, "rare")
    && (InPool(beat, "once") || InPool(beat, "lore") ==>
          Holds(document, "id") && Holds(beat, "id") && !HasHeard(state, document.fields["id"], beat.fields["id"]))
  }

  lemma {:induction false} AllMatchTells(conditions: seq<Json>, state: Json)
    requires Shaped(state) && forall i :: 0 <= i < |conditions| ==> ConditionRules(conditions[i])
    ensures AllMatch(conditions, state) == Ok(forall i :: 0 <= i < |conditions| ==> IsMet(conditions[i], state))
  {
    if conditions != [] {
      ConditionTells(conditions[0], state);
      AllMatchTells(conditions[1..], state);
      forall i | 1 <= i < |conditions| ensures conditions[i] == conditions[1..][i - 1] {
      }
    }
  }

  lemma PoolTells(document: Json, beat: Json, state: Json)
    requires HeaderRules(document) && BeatRules(beat) && PoolRule(beat) && Shaped(state)
    ensures PoolAllows(document, beat, state) ==
      Ok(!InPool(beat, "rare")
         && (InPool(beat, "once") || InPool(beat, "lore") ==>
               !HasHeard(state, document.fields["id"], beat.fields["id"])))
  {
    PoolTexts();
    assert POOLS == ["mandatory", "once", "repeatable", "rare", "lore"];
    HeardIsGot(state, document.fields["id"], beat.fields["id"]);
  }

  lemma PoolTexts()
    ensures "once" != "rare" && "lore" != "rare" && "once" != "lore"
    ensures "mandatory" != "once" && "mandatory" != "lore" && "mandatory" != "rare"
    ensures "repeatable" != "once" && "repeatable" != "lore" && "repeatable" != "rare"
  {
    assert "once"[0] == 'o' && "lore"[0] == 'l' && "rare"[0] == 'r';
    assert |"mandatory"| == 9 && |"repeatable"| == 10 && |"once"| == 4 && |"lore"| == 4 && |"rare"| == 4;
  }

  lemma EligibleTells(document: Json, beat: Json, state: Json)
    requires HeaderRules(document) && BeatRules(beat) && PoolRule(beat) && Shaped(state)
    ensures Eligible(document, beat, state) <==> TakesPart(document, beat, state)
    ensures Judge(document, beat, state).Ok?
  {
    ItemsAreGot(beat, "conditions");
    AllMatchTells(Items(beat, "conditions"), state);
    PoolTells(document, beat, state);
  }

  function Priority(beat: Json): int {
    if Holds(beat, "priority") && beat.fields["priority"].Int? then beat.fields["priority"].n else 0
  }

  /** The first beat of greatest priority among those that take part. */
  predicate IsChosen(document: Json, state: Json, w: int) {
    var beats := BeatList(document);
    && 0 <= w < |beats| && TakesPart(document, beats[w], state)
    && forall i :: 0 <= i < |beats| && TakesPart(document, beats[i], state) ==>
         Priority(beats[i]) < Priority(beats[w]) || (Priority(beats[i]) == Priority(beats[w]) && i >= w)
  }

  /** On a document that follows the rules selection answers the chosen beat, and none when no beat takes part. */
  lemma SelectionTells(document: Json, state: Json)
    requires DocumentRules(document) && Shaped(state)
    ensures Selected(document, state).Ok?
    ensures forall w :: Selected(document, state) == Ok(Some(w)) <==> IsChosen(document, state, w)
    ensures Selected(document, state) == Ok(None) <==>
      forall i :: 0 <= i < |BeatList(document)| ==> !TakesPart(document, BeatList(document)[i], state)
  {
    DocumentIffRules(document);
    ShapedIsWellShaped(state);
    NpcProgress.SelectNeverRaises(document, state);
    var w := Selected(document, state).value;
    SelectedIsChosen(document, state);
    if w.Some? { ChosenOnce(document, state, w.value); }
  }

  lemma EligiblesTakePart(document: Json, state: Json)
    requires DocumentRules(document) && Shaped(state)
    ensures BeatsOf(document).Arr? && BeatsOf(document).items == BeatList(document)
    ensures forall i :: 0 <= i < |BeatList(document)| ==>
      && (Eligible(document, BeatList(document)[i], state) <==> TakesPart(document, BeatList(document)[i], state))
      && PriorityOf(BeatList(document)[i]) == Priority(BeatList(document)[i])
  {
    BeatsAreListed(document);
    forall i | 0 <= i < |BeatList(document)|
      ensures Eligible(document, BeatList(document)[i], state) <==> TakesPart(document, BeatList(document)[i], state)
      ensures PriorityOf(BeatList(document)[i]) == Priority(BeatList(document)[i])
    {
      EligibleTells(document, BeatList(document)[i], state);
    }
  }

  lemma SelectedIsChosen(document: Json, state: Json)
    requires DocumentRules(document) && Shaped(state) && Selected(document, state).Ok?
    ensures var w := Selected(document, state).value;
      if w.Some? then IsChosen(document, state, w.value)
      else forall i :: 0 <= i < |BeatList(document)| ==> !TakesPart(document, BeatList(document)[i], state)
  {
    EligiblesTakePart(document, state);
    SelectsFirstBest(document, state);
    var beats, w := BeatList(document), Selected(document, state).value;
    if w.Some? {
      forall i | 0 <= i < |beats| && TakesPart(document, beats[i], state)
        ensures Priority(beats[i]) < Priority(beats[w.value])
          || (Priority(beats[i]) == Priority(beats[w.value]) && i >= w.value)
      {
        assert Eligible(document, beats[i], state);
      }
    }
  }

  lemma ChosenOnce(document: Json, state: Json, w: nat)
    requires IsChosen(document, state, w)
    ensures forall v :: IsChosen(document, state, v) ==> v == w
  {
  }

  /** What the selector thinks of a beat of a document: who won, and what was met and allowed. */
  predicate Judged(document: Json, beat: Json, state: Json, d: Diagnostic) {
    && Holds(beat, "id") && d.id == beat.fields["id"]
    && (d.conditionsMatch <==>
          forall i :: 0 <= i < |Items(beat, "conditions")| ==> IsMet(Items(beat, "conditions")[i], state))
    && (d.allowed <==>
          && Holds(beat, "entry") && beat.fields["entry"] == Bool(true) && !InPool(beat, "rare")
          && (InPool(beat, "once") || InPool(beat, "lore") ==>
                Holds(document, "id") && !HasHeard(state, document.fields["id"], beat.fields["id"])))
    && (d.eligible <==> TakesPart(document, beat, state))
  }

  lemma JudgedOne(document: Json, beat: Json, state: Json, winner: Option<Json>)
    requires HeaderRules(document) && BeatRules(beat) && PoolRule(beat) && Shaped(state)
    ensures Explain(document, beat, state, winner).Ok?
    ensures Judged(document, beat, state, Explain(document, beat, state, winner).value)
  {
    var conditions := Items(beat, "conditions");
    ItemsAreGot(beat, "conditions");
    ConditionsIffRules(conditions);
    ShapedIsWellShaped(state);
    NpcProgress.GoodConditionsEvaluate(conditions, state);
    AllMatchTells(conditions, state);
    PoolTells(document, beat, state);
    NamedIsId(beat);
  }

  /** The diagnostics judge every beat in order, and exactly the chosen one has the winner's status. */
  lemma DiagnosticsTell(document: Json, state: Json)
    requires DocumentRules(document) && Shaped(state)
    ensures Explained(document, state).Ok?
    ensures var ds, beats := Explained(document, state).value, BeatList(document);
      |ds| == |beats| && forall i :: 0 <= i < |beats| ==>
        && Judged(document, beats[i], state, ds[i])
        && (ds[i].status == WinnerStatus <==> IsChosen(document, state, i))
        && (ds[i].status == Continuation <==> beats[i].fields["entry"] == Bool(false))
        && (ds[i].status == RejectedStatus <==> beats[i].fields["entry"] == Bool(true) && !ds[i].eligible)
  {
    DocumentIffRules(document);
    ShapedIsWellShaped(state);
    BeatsAreListed(document);
    NpcProgress.DiagnosticsAgree(document, state);
    SelectionTells(document, state);
    var ds, beats := Explained(document, state).value, BeatList(document);
    DiagnosticsJudge(document, state);
    forall i | 0 <= i < |beats|
      ensures ds[i].status == WinnerStatus <==> IsChosen(document, state, i)
    {
      assert Selected(document, state) == Ok(Some(i)) <==> IsChosen(document, state, i);
    }
  }

  lemma DiagnosticsJudge(document: Json, state: Json)
    requires DocumentRules(document) && Shaped(state) && Explained(document, state).Ok?
    ensures |Explained(document, state).value| == |BeatList(document)|
    ensures forall i :: 0 <= i < |BeatList(document)| ==>
      Judged(document, BeatList(document)[i], state, Explained(document, state).value[i])
  {
    BeatsAreListed(document);
    var beats, w := BeatList(document), Selected(document, state).value;
    var winner := if w.Some? then Some(IdOf(beats[w.value])) else None;
    forall i | 0 <= i < |beats|
      ensures beats[i].Obj? && Explain(document, beats[i], state, winner).Ok?
      ensures Judged(document, beats[i], state, Explain(document, beats[i], state, winner).value)
    {
      JudgedOne(document, beats[i], state, winner);
    }
    NpcProgress.ExplainsEach(document, beats, state, winner, |beats|);
  }

  // Actions.

  /** The list under `key` has the value, at its end if it was not there; nothing else has changed. */
  predicate Adds(before: Json, after: Json, key: string, v: Json) {
    before.Obj? && after == Obj(before.fields[key :=
      Arr(if v in Items(before, key) then Items(before, key) else Items(before, key) + [v])])
  }

  /** The list under `key` has lost the value, however often it was there; nothing else has changed. */
  ghost predicate Removes(before: Json, after: Json, key: string, v: Json) {
    && before.Obj? && after == Obj(before.fields[key := Arr(Items(after, key))])
    && multiset(Items(after, key)) == multiset(Items(before, key))[v := 0]
  }

  /** The fact has the value; nothing else has changed. */
  predicate SetsFact(before: Json, after: Json, name: string, v: Json) {
    var facts := if Holds(before, "facts") && before.fields["facts"].Obj? then before.fields["facts"].fields else map[];
    before.Obj? && after == Obj(before.fields["facts" := Obj(facts[name := v])])
  }

  /** What the action makes of the state. */
  ghost predicate Does(action: Json, before: Json, after: Json) {
    && (Holds(action, "set_fact") && FactRules(action.fields["set_fact"]) ==>
          SetsFact(before, after, action.fields["set_fact"].fields["fact"].s,
            action.fields["set_fact"].fields["value"]))
    && (Holds(action, "mark_npc_met") ==> Adds(before, after, "npc_met", action.fields["mark_npc_met"]))
    && (Holds(action, "grant_ability") && Holds(action.fields["grant_ability"], "ability") ==>
          Adds(before, after, "ability_granted", action.fields["grant_ability"].fields["ability"]))
    && (Holds(action, "give_item") && ItemRules(action.fields["give_item"]) ==>
          Adds(before, after, "item_owned", action.fields["give_item"].fields["item"]))
    && (Holds(action, "remove_item") && ItemRules(action.fields["remove_item"]) ==>
          Removes(before, after, "item_owned", action.fields["remove_item"].fields["item"]))
  }

  /** An item action for more than one item. */
  predicate Several(action: Json) {
    || (Holds(action, "give_item") && Holds(action.fields["give_item"], "quantity")
        && action.fields["give_item"].fields["quantity"] != Int(1))
    || (Holds(action, "remove_item") && Holds(action.fields["remove_item"], "quantity")
        && action.fields["remove_item"].fields["quantity"] != Int(1))
  }

  lemma {:induction false} WithoutCounts(items: seq<Json>, v: Json)
    ensures multiset(Without(items, v)) == multiset(items)[v := 0]
  {
    if items != [] {
      WithoutCounts(items[1..], v);
      assert items == [items[0]] + items[1..];
      var rest := Without(items[1..], v);
      if items[0] != v { assert Without(items, v) == [items[0]] + rest; } else { assert Without(items, v) == rest; }
    }
  }

  lemma AppendTells(state: Json, key: string, v: Json)
    requires state.Obj? && Listing(state, key)
    ensures var r := AppendUnique(state, key, v); r.Ok? && Adds(state, r.value, key, v)
  {
    ItemsAreGot(state, key);
  }

  lemma ItemTells(state: Json, data: Json, give: bool)
    requires Shaped(state) && ItemRules(data)
    ensures var r := ApplyItem(state, data, give);
      if data.fields["quantity"] != Int(1) then r == Err(QuantityNotOne)
      else if give then r.Ok? && Adds(state, r.value, "item_owned", data.fields["item"])
      else r.Ok? && Removes(state, r.value, "item_owned", data.fields["item"])
  {
    ItemsAreGot(state, "item_owned");
    AppendTells(state, "item_owned", data.fields["item"]);
    WithoutCounts(Items(state, "item_owned"), data.fields["item"]);
  }

  /** An action that follows the rules does what it says, unless it moves several items. */
  lemma ActionTells(state: Json, action: Json)
    requires Shaped(state) && ActionRules(action)
    ensures var r := ApplyAction(state, action);
      if Several(action) then r == Err(QuantityNotOne) else r.Ok? && Does(action, state, r.value)
  {
    ActionKeys();
    AppendTells(state, "npc_met", Get(action, "mark_npc_met", Null));
    AppendTells(state, "ability_granted", Get(Get(action, "grant_ability", Null), "ability", Null));
    if Holds(action, "give_item") {
      ItemTells(state, action.fields["give_item"], true);
    } else if Holds(action, "remove_item") {
      ItemTells(state, action.fields["remove_item"], false);
    }
  }

  // Progress.

  predicate HasBeat(document: Json, beat: string) {
    exists b :: 0 <= b < |BeatList(document)| && IsBeat(document, beat, b)
  }

  predicate IsBeat(document: Json, beat: string, b: int) {
    0 <= b < |BeatList(document)| && Holds(BeatList(document)[b], "id")
    && BeatList(document)[b].fields["id"] == Str(beat)
  }

  /** The choice of that id of the beat of that id. */
  predicate IsOffer(document: Json, beat: string, choice: string, taken: Json, b: int, k: int) {
    && IsBeat(document, beat, b) && 0 <= k < |Items(BeatList(document)[b], "choices")|
    && Items(BeatList(document)[b], "choices")[k] == taken
    && Holds(taken, "id") && taken.fields["id"] == Str(choice)
  }

  ghost predicate HasOffer(document: Json, beat: string, choice: string, taken: Json) {
    exists b, k :: IsOffer(document, beat, choice, taken, b, k)
  }

  /** The beat is on the list of what was heard, at its end if it was not there; nothing else has changed. */
  predicate Records(document: Json, before: Json, after: Json, beat: string) {
    && before.Obj? && Holds(document, "id")
    && after == Obj(before.fields["dialogue_heard" := Arr(
         if HasHeard(before, document.fields["id"], Str(beat)) then Items(before, "dialogue_heard")
         else Items(before, "dialogue_heard") + [Obj(map["npc" := document.fields["id"], "beat" := Str(beat)])])])
  }

  lemma RecordTells(document: Json, state: Json, beat: string)
    requires HeaderRules(document) && Shaped(state)
    ensures var r := RecordHeard(document, state, beat); r.Ok? && Records(document, state, r.value, beat)
  {
    ItemsAreGot(state, "dialogue_heard");
    HeardIsGot(state, document.fields["id"], Str(beat));
  }

  lemma BeatIsNamed(document: Json, beat: string)
    requires DocumentRules(document)
    ensures BeatsOf(document).Arr? && BeatsOf(document).items == BeatList(document)
    ensures NamesBeat(BeatsOf(document).items, Str(beat)) <==> HasBeat(document, beat)
    ensures forall b :: 0 <= b < |BeatList(document)| ==>
      (IsBeat(document, beat, b) <==> IdOf(BeatList(document)[b]) == Str(beat))
  {
    BeatsAreListed(document);
    forall b | 0 <= b < |BeatList(document)|
      ensures IsBeat(document, beat, b) <==> IdOf(BeatList(document)[b]) == Str(beat)
    {
      NamedIsId(BeatList(document)[b]);
    }
    if NamesBeat(BeatsOf(document).items, Str(beat)) {
      var b :| 0 <= b < |BeatList(document)| && IdOf(BeatList(document)[b]) == Str(beat);
      assert IsBeat(document, beat, b);
    }
  }

  /** Completing a beat records it, and fails only for a beat the document does not have. */
  lemma CompleteTells(document: Json, state: Json, beat: string)
    requires DocumentRules(document) && Shaped(state)
    ensures var r := Complete(document, state, beat);
      if HasBeat(document, beat) then r.Ok? && Records(document, state, r.value, beat)
      else r == Err(UnknownBeat(beat))
  {
    DocumentIffRules(document);
    BeatIsNamed(document, beat);
    NpcProgress.FoundBeat(document, beat);
    RecordTells(document, state, beat);
  }

  /** The states a run of actions goes through, one after the other. */
  ghost predicate Runs(actions: seq<Json>, states: seq<Json>, first: Json, last: Json) {
    && |states| == |actions| + 1 && states[0] == first && states[|actions|] == last
    && forall i :: 0 <= i < |actions| ==> Does(actions[i], states[i], states[i + 1])
  }

  predicate SomeSeveral(actions: seq<Json>) { exists i :: 0 <= i < |actions| && Several(actions[i]) }

  lemma {:induction false} ActionsTell(state: Json, actions: seq<Json>)
    requires Shaped(state) && forall i :: 0 <= i < |actions| ==> ActionRules(actions[i])
    ensures var r := ApplyActions(state, actions);
      if SomeSeveral(actions) then r == Err(QuantityNotOne)
      else r.Ok? && exists states :: Runs(actions, states, state, r.value)
    decreases |actions|
  {
    if actions == [] {
      assert Runs(actions, [state], state, state);
    } else {
      ActionTells(state, actions[0]);
      var next := ApplyAction(state, actions[0]);
      if next.Ok? {
        ShapedIsWellShaped(state);
        ActionIffRules(actions[0]);
        NpcProgress.GoodActionApplies(state, actions[0]);
        ShapedIsWellShaped(next.value);
        ActionsTell(next.value, actions[1..]);
        SeveralLater(actions);
        if !SomeSeveral(actions) {
          var last := ApplyActions(state, actions).value;
          var states :| Runs(actions[1..], states, next.value, last);
          RunsLonger(actions, states, state, last);
        }
      }
    }
  }

  lemma SeveralLater(actions: seq<Json>)
    requires actions != [] && !Several(actions[0])
    ensures SomeSeveral(actions) <==> SomeSeveral(actions[1..])
  {
    if i :| 0 <= i < |actions| && Several(actions[i]) { assert actions[1..][i - 1] == actions[i]; }
    if i :| 0 <= i < |actions[1..]| && Several(actions[1..][i]) { assert actions[i + 1] == actions[1..][i]; }
  }

  lemma RunsLonger(actions: seq<Json>, states: seq<Json>, first: Json, last: Json)
    requires actions != [] && states != [] && Runs(actions[1..], states, states[0], last)
    requires Does(actions[0], first, states[0])
    ensures Runs(actions, [first] + states, first, last)
  {
    var all := [first] + states;
    forall i | 0 <= i < |actions| ensures Does(actions[i], all[i], all[i + 1]) {
      if i > 0 { assert actions[i] == actions[1..][i - 1] && all[i] == states[i - 1] && all[i + 1] == states[i]; }
    }
  }

  /** The beat the choice leads to, if it names one. */
  predicate LeadsTo(document: Json, taken: Json, next: Option<nat>) {
    if Holds(taken, "next") && taken.fields["next"] != Null then
      next.Some? && taken.fields["next"].Str? && IsBeat(document, taken.fields["next"].s, next.value)
    else next.None?
  }

  /** What advancing over this choice comes to: the beat recorded, the actions done one after the other. */
  ghost predicate Advances(document: Json, state: Json, beat: string, taken: Json, after: Json) {
    exists heard, states :: Records(document, state, heard, beat) && Runs(Items(taken, "actions"), states, heard, after)
  }

  lemma OfferIsHad(document: Json, beat: string, choice: string, taken: Json)
    requires DocumentRules(document) && BeatsOf(document).Arr?
    ensures HasOffer(document, beat, choice, taken) <==> NpcProgress.Offers(document, beat, choice, taken)
  {
    BeatIsNamed(document, beat);
    forall b, k | 0 <= b < |BeatList(document)|
      ensures IsOffer(document, beat, choice, taken, b, k) <==>
        (IdOf(BeatList(document)[b]) == Str(beat) && NpcProgress.OfferedAt(BeatList(document)[b], choice, taken, k))
    {
      ItemsAreGot(BeatList(document)[b], "choices");
      if 0 <= k < |Items(BeatList(document)[b], "choices")| {
        assert ChoiceRules(Items(BeatList(document)[b], "choices")[k]);
        NamedIsId(Items(BeatList(document)[b], "choices")[k]);
      }
    }
    if HasOffer(document, beat, choice, taken) {
      var b, k :| IsOffer(document, beat, choice, taken, b, k);
      assert NpcProgress.OfferedAt(BeatsOf(document).items[b], choice, taken, k);
    }
    if NpcProgress.Offers(document, beat, choice, taken) {
      var b, k :| 0 <= b < |BeatsOf(document).items| && IdOf(BeatsOf(document).items[b]) == Str(beat)
        && NpcProgress.OfferedAt(BeatsOf(document).items[b], choice, taken, k);
      assert IsOffer(document, beat, choice, taken, b, k);
    }
  }

  /** The rest of `advance_choice`, once beat and choice are found. */
  lemma TakenAdvances(document: Json, state: Json, beat: string, choice: string, taken: Json)
    requires DocumentRules(document) && Shaped(state) && ChoiceRules(taken)
    requires BeatsOf(document).Arr? && FindBeat(document, Str(beat), 0).Some?
    requires var choices := Get(BeatsOf(document).items[FindBeat(document, Str(beat), 0).value], "choices", NO_ITEMS);
      choices.Arr? && FindChoice(choices.items, choice) == Some(taken)
    requires var next := Get(taken, "next", Null); next.Null? || (next.Str? && FindBeat(document, next, 0).Some?)
    ensures var r := AdvanceChoice(document, state, beat, choice);
      if SomeSeveral(Items(taken, "actions")) then r == Err(QuantityNotOne)
      else r.Ok? && Advances(document, state, beat, taken, r.value.0) && LeadsTo(document, taken, r.value.1)
  {
    RecordTells(document, state, beat);
    var heard := RecordHeard(document, state, beat).value;
    RecordedIsShaped(document, state, heard, beat);
    ItemsAreGot(taken, "actions");
    ActionsTell(heard, Items(taken, "actions"));
    var next := Get(taken, "next", Null);
    if next.Str? { BeatIsNamed(document, next.s); }
  }

  lemma RecordedIsShaped(document: Json, state: Json, heard: Json, beat: string)
    requires Shaped(state) && Records(document, state, heard, beat)
    ensures Shaped(heard)
  {
    NpcProgress.KeysDiffer();
  }

  /** The choice that is found is one the beat offers; it follows the rules, and its next beat is found as well. */
  lemma FoundIsOffer(document: Json, beat: string, choice: string)
    requires DocumentRules(document) && BeatsOf(document).Arr? && FindBeat(document, Str(beat), 0).Some?
    ensures var choices := Get(BeatsOf(document).items[FindBeat(document, Str(beat), 0).value], "choices", NO_ITEMS);
      && choices.Arr?
      && match FindChoice(choices.items, choice)
         case None => forall taken :: !HasOffer(document, beat, choice, taken)
         case Some(taken) =>
           && HasOffer(document, beat, choice, taken) && ChoiceRules(taken)
           && var next := Get(taken, "next", Null); next.Null? || (next.Str? && FindBeat(document, next, 0).Some?)
  {
    DocumentIffRules(document);
    BeatIsNamed(document, beat);
    var b := FindBeat(document, Str(beat), 0).value;
    var found := BeatList(document)[b];
    ItemsAreGot(found, "choices");
    var choices := Items(found, "choices");
    if FindChoice(choices, choice).None? {
      NpcProgress.NothingOffered(document, b, beat, choice);
      forall taken ensures !HasOffer(document, beat, choice, taken) {
        OfferIsHad(document, beat, choice, taken);
      }
    } else {
      NpcProgress.ChosenIsGood(document, b, beat, choice);
      NpcProgress.ChosenIsOne(choices, choice);
      OfferIsHad(document, beat, choice, FindChoice(choices, choice).value);
    }
  }

  /**
   Advancing finds the choice under its ids, records the beat, does the actions in their order and answers the
   beat the choice names; it raises exactly for a missing beat, a missing choice or a move of several items.
   */
  lemma AdvanceTells(document: Json, state: Json, beat: string, choice: string)
    requires DocumentRules(document) && Shaped(state)
    ensures match AdvanceChoice(document, state, beat, choice)
      case Ok((after, next)) =>
        exists taken ::
          && HasOffer(document, beat, choice, taken) && !SomeSeveral(Items(taken, "actions"))
          && Advances(document, state, beat, taken, after) && LeadsTo(document, taken, next)
      case Err(UnknownBeat(id)) => id == beat && !HasBeat(document, beat)
      case Err(UnknownChoice(id)) =>
        id == choice && HasBeat(document, beat) && forall taken :: !HasOffer(document, beat, choice, taken)
      case Err(QuantityNotOne) =>
        exists taken :: HasOffer(document, beat, choice, taken) && SomeSeveral(Items(taken, "actions"))
      case Err(Broken) => false
  {
    DocumentIffRules(document);
    BeatIsNamed(document, beat);
    NpcProgress.FoundBeat(document, beat);
    var at := FindBeat(document, Str(beat), 0);
    if at.Some? {
      FoundIsOffer(document, beat, choice);
      var chosen := FindChoice(Get(BeatsOf(document).items[at.value], "choices", NO_ITEMS).items, choice);
      if chosen.Some? { TakenAdvances(document, state, beat, choice, chosen.value); }
    }
  }

  /** Only one choice answers to the two ids. */
  lemma OneOffer(document: Json, beat: string, choice: string, x: Json, y: Json)
    requires DocumentRules(document) && HasOffer(document, beat, choice, x) && HasOffer(document, beat, choice, y)
    ensures x == y
  {
    DocumentIffRules(document);
    BeatIsNamed(document, beat);
    OfferIsHad(document, beat, choice, x);
    OfferIsHad(document, beat, choice, y);
    NpcProgress.OffersOne(document, beat, choice, x, y);
  }
}
