/** What validation buys: the preview never gets stuck, diagnostics agree with selection, one-shots happen once. */
module NpcProgress {
  import opened Basics
  import opened NpcDocument
  import opened NpcSelection

  // Validated pieces never raise.

  lemma {:induction false} SupportedHas(v: Json, kinds: seq<string>)
    ensures forall k :: k in Supported(v, kinds) <==> k in kinds && Has(v, k)
  {
    if kinds != [] { SupportedHas(v, kinds[1..]); }
  }

  lemma OnlyKind(v: Json, kinds: seq<string>, k: string)
    requires |Supported(v, kinds)| == 1 && k in kinds
    ensures Has(v, k) <==> k == Supported(v, kinds)[0]
  {
    SupportedHas(v, kinds);
    assert Supported(v, kinds)[0] in Supported(v, kinds);
  }

  lemma ConditionKinds(v: Json)
    requires |Supported(v, CONDITIONS)| == 1
    ensures var kind := Supported(v, CONDITIONS)[0];
      && Has(v, kind)
      && (kind == "fact" || kind == "npc_met" || kind == "dialogue_heard" || kind == "item_owned"
          || kind == "item_equipped")
      && (Has(v, "fact") <==> kind == "fact") && (Has(v, "npc_met") <==> kind == "npc_met")
      && (Has(v, "dialogue_heard") <==> kind == "dialogue_heard")
      && (Has(v, "item_owned") <==> kind == "item_owned") && (Has(v, "item_equipped") <==> kind == "item_equipped")
  {
    assert "fact" == CONDITIONS[0] && "npc_met" == CONDITIONS[1] && "dialogue_heard" == CONDITIONS[2];
    assert "item_owned" == CONDITIONS[3] && "item_equipped" == CONDITIONS[4];
    OnlyKind(v, CONDITIONS, "fact");
    OnlyKind(v, CONDITIONS, "npc_met");
    OnlyKind(v, CONDITIONS, "dialogue_heard");
    OnlyKind(v, CONDITIONS, "item_owned");
    OnlyKind(v, CONDITIONS, "item_equipped");
    SupportedHas(v, CONDITIONS);
    var kind := Supported(v, CONDITIONS)[0];
    assert kind in Supported(v, CONDITIONS) && kind in CONDITIONS;
    var i :| 0 <= i < 5 && CONDITIONS[i] == kind;
  }

  lemma GoodConditionEvaluates(c: Json, state: Json)
    requires GoodCondition(c) && WellShaped(state)
    ensures ConditionValue(c, state).Ok? && ConditionMatches(c, state).Ok? && Has(c, "equals")
    ensures ConditionMatches(c, state).value == (Bool(ConditionValue(c, state).value) == c.fields["equals"])
  {
    ConditionKinds(c);
    var kind := Supported(c, CONDITIONS)[0];
    assert Get(c, kind, Null) == c.fields[kind];
    if kind == "dialogue_heard" {
      var reference := c.fields[kind];
      assert GoodReference("dialogue_heard", reference);
      assert Has(reference, "npc") && Has(reference, "beat");
    } else if kind == "fact" {
      assert GoodReference("fact", c.fields[kind]);
    }
  }

  lemma {:induction false} GoodConditionsEvaluate(conditions: seq<Json>, state: Json)
    requires WellShaped(state) && forall i :: 0 <= i < |conditions| ==> GoodCondition(conditions[i])
    ensures AllMatch(conditions, state).Ok? && EveryMatches(conditions, state) == AllMatch(conditions, state)
  {
    if conditions != [] {
      GoodConditionEvaluates(conditions[0], state);
      GoodConditionsEvaluate(conditions[1..], state);
    }
  }

  /** The facts about one beat of a valid document that selection needs. */
  predicate SoundBeat(document: Json, beat: Json) {
    GoodBeat(beat) && GoodPool(beat) && Filled(IdOf(document))
  }

  lemma PoolEvaluates(document: Json, beat: Json, state: Json)
    requires SoundBeat(document, beat) && WellShaped(state)
    ensures PoolAllows(document, beat, state).Ok?
  {
    assert "mandatory" == POOLS[0];
  }

  lemma BeatEvaluates(document: Json, beat: Json, state: Json)
    requires SoundBeat(document, beat) && WellShaped(state)
    ensures BeatMatches(document, beat, state).Ok? && Judge(document, beat, state).Ok?
  {
    GoodConditionsEvaluate(Get(beat, "conditions", NO_ITEMS).items, state);
    PoolEvaluates(document, beat, state);
  }

  lemma ExplainEvaluates(document: Json, beat: Json, state: Json, winner: Option<Json>)
    requires SoundBeat(document, beat) && WellShaped(state)
    ensures Explain(document, beat, state, winner).Ok?
    ensures var d := Explain(document, beat, state, winner).value;
      && d.id == IdOf(beat)
      && (d.eligible <==> Eligible(document, beat, state))
      && d.status ==
        if Get(beat, "entry", Null) != Bool(true) then Continuation
        else if !d.eligible then RejectedStatus
        else if winner == Some(IdOf(beat)) then WinnerStatus
        else EligibleStatus
  {
    GoodConditionsEvaluate(Get(beat, "conditions", NO_ITEMS).items, state);
    PoolEvaluates(document, beat, state);
  }

  lemma BeatsAreSound(document: Json, i: nat)
    requires ValidDocument(document) && i < |BeatsOf(document).items|
    ensures SoundBeat(document, BeatsOf(document).items[i]) && BeatsOf(document).items[i].Obj?
  {
  }

  lemma {:induction false} NoErrorNoBreak(marks: seq<Result<Option<int>>>, n: nat)
    requires n <= |marks| && forall i :: 0 <= i < |marks| ==> marks[i].Ok?
    ensures Winner(marks, n).Ok?
  {
    if n > 0 { NoErrorNoBreak(marks, n - 1); }
  }

  /** On a valid document and a well shaped state, selection does not raise. */
  lemma SelectNeverRaises(document: Json, state: Json)
    requires ValidDocument(document) && WellShaped(state)
    ensures Selected(document, state).Ok?
  {
    var beats := BeatsOf(document).items;
    var marks := Judgements(document, beats, state);
    forall i | 0 <= i < |marks| ensures marks[i].Ok? {
      BeatsAreSound(document, i);
      BeatEvaluates(document, beats[i], state);
    }
    NoErrorNoBreak(marks, |beats|);
  }

  // Diagnostics refine the selection.

  /** The diagnostics of the first `n` beats, one each and in order. */
  lemma {:induction false} ExplainsEach(document: Json, beats: seq<Json>, state: Json, winner: Option<Json>, n: nat)
    requires n <= |beats| && forall i :: 0 <= i < n ==> beats[i].Obj? && Explain(document, beats[i], state, winner).Ok?
    ensures var r := ExplainAll(document, beats, state, winner, n);
      r.Ok? && |r.value| == n && forall i :: 0 <= i < n ==> Ok(r.value[i]) == Explain(document, beats[i], state, winner)
  {
    if n > 0 { ExplainsEach(document, beats, state, winner, n - 1); }
  }

  lemma DistinctIds(document: Json, i: nat, j: nat)
    requires ValidDocument(document) && i < |BeatsOf(document).items| && j < |BeatsOf(document).items|
    requires IdOf(BeatsOf(document).items[i]) == IdOf(BeatsOf(document).items[j])
    ensures i == j
  {
    var beats := BeatsOf(document).items;
    assert FreshId(beats, i) && FreshId(beats, j);
  }

  /**
   Diagnostics refine the selector: one entry per beat, in order; eligible exactly when the beat matches;
   exactly the selected beat has the winner's status; every other beat is a continuation, rejected or
   merely eligible.
   */
  lemma DiagnosticsAgree(document: Json, state: Json)
    requires ValidDocument(document) && WellShaped(state)
    ensures Selected(document, state).Ok? && Explained(document, state).Ok?
    ensures var beats, w, ds := BeatsOf(document).items, Selected(document, state).value,
      Explained(document, state).value;
      |ds| == |beats| && forall i :: 0 <= i < |beats| ==>
        && ds[i].id == IdOf(beats[i])
        && (ds[i].eligible <==> Eligible(document, beats[i], state))
        && (ds[i].status == WinnerStatus <==> w == Some(i))
        && (ds[i].status == Continuation <==> Get(beats[i], "entry", Null) != Bool(true))
        && (ds[i].status == RejectedStatus <==> Get(beats[i], "entry", Null) == Bool(true) && !ds[i].eligible)
        && (ds[i].status == EligibleStatus <==> ds[i].eligible && w != Some(i))
  {
    SelectNeverRaises(document, state);
    SelectsFirstBest(document, state);
    var beats, w := BeatsOf(document).items, Selected(document, state).value;
    var winner := if w.Some? then Some(IdOf(beats[w.value])) else None;
    forall i | 0 <= i < |beats|
      ensures beats[i].Obj? && Explain(document, beats[i], state, winner).Ok?
      ensures var d := Explain(document, beats[i], state, winner).value;
        && d.id == IdOf(beats[i])
        && (d.eligible <==> Eligible(document, beats[i], state))
        && (d.status == WinnerStatus <==> w == Some(i))
        && (d.status == Continuation <==> Get(beats[i], "entry", Null) != Bool(true))
        && (d.status == RejectedStatus <==> Get(beats[i], "entry", Null) == Bool(true) && !d.eligible)
        && (d.status == EligibleStatus <==> d.eligible && w != Some(i))
    {
      BeatsAreSound(document, i);
      ExplainEvaluates(document, beats[i], state, winner);
      if w.Some? && IdOf(beats[i]) == IdOf(beats[w.value]) { DistinctIds(document, i, w.value); }
    }
    ExplainsEach(document, beats, state, winner, |beats|);
  }

  // Progress keeps the state well shaped and forgets nothing.

  /** Everything heard before is still heard. */
  predicate Remembers(before: Json, after: Json) {
    && Get(before, "dialogue_heard", NO_ITEMS).Arr? && Get(after, "dialogue_heard", NO_ITEMS).Arr?
    && Get(before, "dialogue_heard", NO_ITEMS).items <= Get(after, "dialogue_heard", NO_ITEMS).items
  }

  lemma KeysDiffer()
    ensures "facts" != "npc_met" && "facts" != "dialogue_heard" && "facts" != "item_owned"
      && "facts" != "ability_granted"
    ensures "npc_met" != "dialogue_heard" && "npc_met" != "item_owned" && "npc_met" != "ability_granted"
    ensures "dialogue_heard" != "item_owned" && "dialogue_heard" != "ability_granted"
      && "item_owned" != "ability_granted"
    ensures "item_equipped" != "facts" && "item_equipped" != "npc_met" && "item_equipped" != "dialogue_heard"
    ensures "item_equipped" != "item_owned" && "item_equipped" != "ability_granted"
  {
    assert |"facts"| == 5 && |"npc_met"| == 7 && |"dialogue_heard"| == 14 && |"item_owned"| == 10
      && |"ability_granted"| == 15;
    assert |"item_equipped"| == 13;
  }

  /** Replacing one memory by a list keeps the shape; only `dialogue_heard` concerns what was heard. */
  lemma SetList(state: Json, key: string, items: seq<Json>)
    requires WellShaped(state)
    requires key == "npc_met" || key == "dialogue_heard" || key == "item_owned" || key == "ability_granted"
    requires key == "dialogue_heard" ==> Get(state, "dialogue_heard", NO_ITEMS).items <= items
    ensures WellShaped(Set(state, key, Arr(items))) && Remembers(state, Set(state, key, Arr(items)))
  {
    KeysDiffer();
  }

  lemma SetFacts(state: Json, facts: map<string, Json>)
    requires WellShaped(state)
    ensures WellShaped(Set(state, "facts", Obj(facts))) && Remembers(state, Set(state, "facts", Obj(facts)))
  {
    KeysDiffer();
  }

  lemma ActionKinds(v: Json)
    requires |Supported(v, ACTIONS)| == 1
    ensures var kind := Supported(v, ACTIONS)[0];
      && Has(v, kind)
      && (kind == "set_fact" || kind == "mark_npc_met" || kind == "give_item" || kind == "remove_item"
          || kind == "grant_ability")
      && (Has(v, "set_fact") <==> kind == "set_fact") && (Has(v, "mark_npc_met") <==> kind == "mark_npc_met")
      && (Has(v, "give_item") <==> kind == "give_item") && (Has(v, "remove_item") <==> kind == "remove_item")
      && (Has(v, "grant_ability") <==> kind == "grant_ability")
  {
    assert "set_fact" == ACTIONS[0] && "mark_npc_met" == ACTIONS[1] && "give_item" == ACTIONS[2];
    assert "remove_item" == ACTIONS[3] && "grant_ability" == ACTIONS[4];
    OnlyKind(v, ACTIONS, "set_fact");
    OnlyKind(v, ACTIONS, "mark_npc_met");
    OnlyKind(v, ACTIONS, "give_item");
    OnlyKind(v, ACTIONS, "remove_item");
    OnlyKind(v, ACTIONS, "grant_ability");
    SupportedHas(v, ACTIONS);
    var kind := Supported(v, ACTIONS)[0];
    assert kind in Supported(v, ACTIONS) && kind in ACTIONS;
    var i :| 0 <= i < 5 && ACTIONS[i] == kind;
  }

  /** An item action that moves another number of items than one. */
  predicate MovesSeveral(action: Json) {
    || (Has(action, "give_item") && Get(action.fields["give_item"], "quantity", Null) != Int(1))
    || (Has(action, "remove_item") && Get(action.fields["remove_item"], "quantity", Null) != Int(1))
  }

  predicate SomeMovesSeveral(actions: seq<Json>) { exists i :: 0 <= i < |actions| && MovesSeveral(actions[i]) }

  lemma GoodActionApplies(state: Json, action: Json)
    requires WellShaped(state) && GoodAction(action)
    ensures var r := ApplyAction(state, action);
      if r.Ok? then WellShaped(r.value) && Remembers(state, r.value) && !MovesSeveral(action)
      else r.error == QuantityNotOne && MovesSeveral(action)
  {
    ActionKinds(action);
    var kind := Supported(action, ACTIONS)[0];
    var data := action.fields[kind];
    assert GoodActionData(kind, data);
    if kind == "set_fact" {
      var facts := Get(state, "facts", NO_FIELDS);
      SetFacts(state, facts.fields[data.fields["fact"].s := data.fields["value"]]);
    } else if kind == "mark_npc_met" {
      AppendKeeps(state, "npc_met", data);
    } else if kind == "grant_ability" {
      AppendKeeps(state, "ability_granted", data.fields["ability"]);
    } else {
      AppendKeeps(state, "item_owned", data.fields["item"]);
      SetList(state, "item_owned", Without(Get(state, "item_owned", NO_ITEMS).items, data.fields["item"]));
    }
  }

  lemma AppendKeeps(state: Json, key: string, v: Json)
    requires WellShaped(state) && (key == "npc_met" || key == "item_owned" || key == "ability_granted")
    ensures AppendUnique(state, key, v).Ok?
    ensures WellShaped(AppendUnique(state, key, v).value) && Remembers(state, AppendUnique(state, key, v).value)
  {
    KeysDiffer();
    var items := Get(state, key, NO_ITEMS).items;
    SetList(state, key, if v in items then items else items + [v]);
  }

  lemma {:induction false} GoodActionsApply(state: Json, actions: seq<Json>)
    requires WellShaped(state) && forall i :: 0 <= i < |actions| ==> GoodAction(actions[i])
    ensures var r := ApplyActions(state, actions);
      if r.Ok? then WellShaped(r.value) && Remembers(state, r.value) && !SomeMovesSeveral(actions)
      else r.error == QuantityNotOne && SomeMovesSeveral(actions)
    decreases |actions|
  {
    if actions != [] {
      GoodActionApplies(state, actions[0]);
      SplitSeveral(actions);
      var next := ApplyAction(state, actions[0]);
      if next.Ok? { GoodActionsApply(next.value, actions[1..]); }
    }
  }

  lemma SplitSeveral(actions: seq<Json>)
    requires actions != []
    ensures SomeMovesSeveral(actions) <==> MovesSeveral(actions[0]) || SomeMovesSeveral(actions[1..])
  {
    if SomeMovesSeveral(actions[1..]) {
      var i :| 0 <= i < |actions[1..]| && MovesSeveral(actions[1..][i]);
      assert MovesSeveral(actions[i + 1]);
    }
    if i :| 0 <= i < |actions| && MovesSeveral(actions[i]) { assert i > 0 ==> actions[1..][i - 1] == actions[i]; }
  }

  /** Recording a beat always works, keeps the shape, and makes the beat heard. */
  lemma RecordKeeps(document: Json, state: Json, beat: string)
    requires ValidDocument(document) && WellShaped(state)
    ensures var r := RecordHeard(document, state, beat);
      && r.Ok? && WellShaped(r.value) && Remembers(state, r.value)
      && HeardIn(Get(r.value, "dialogue_heard", NO_ITEMS).items, IdOf(document), Str(beat))
  {
    var items := Get(state, "dialogue_heard", NO_ITEMS).items;
    var entry := Obj(map["npc" := IdOf(document), "beat" := Str(beat)]);
    var more := if HeardIn(items, IdOf(document), Str(beat)) then items else items + [entry];
    SetList(state, "dialogue_heard", more);
    if !HeardIn(items, IdOf(document), Str(beat)) {
      assert "npc" != "beat" by { assert |"npc"| == 3 && |"beat"| == 4; }
      assert IsHeard(more[|items|], IdOf(document), Str(beat));
    }
  }

  /** `complete_beat` raises only for an unknown beat. */
  lemma CompleteNeverStuck(document: Json, state: Json, beat: string)
    requires ValidDocument(document) && WellShaped(state)
    ensures var r := Complete(document, state, beat);
      if r.Ok? then
        WellShaped(r.value) && Remembers(state, r.value)
        && HeardIn(Get(r.value, "dialogue_heard", NO_ITEMS).items, IdOf(document), Str(beat))
      else r.error == UnknownBeat(beat) && !NamesBeat(BeatsOf(document).items, Str(beat))
  {
    RecordKeeps(document, state, beat);
    var beats := BeatsOf(document).items;
    forall i | 0 <= i < |beats| ensures beats[i].Obj? {
      BeatsAreSound(document, i);
    }
  }

  lemma {:induction false} ChosenIsOne(choices: seq<Json>, id: string)
    requires FindChoice(choices, id).Some?
    ensures exists i :: 0 <= i < |choices| && choices[i] == FindChoice(choices, id).value
    ensures IdOf(FindChoice(choices, id).value) == Str(id)
  {
    if !(choices[0].Obj? && IdOf(choices[0]) == Str(id)) {
      ChosenIsOne(choices[1..], id);
      var i :| 0 <= i < |choices[1..]| && choices[1..][i] == FindChoice(choices, id).value;
      assert choices[i + 1] == FindChoice(choices, id).value;
    }
  }

  lemma NextResolves(document: Json, choice: Json)
    requires ValidDocument(document) && GoodNext(BeatsOf(document).items, choice)
    ensures var next := Get(choice, "next", Null); next.Null? || (next.Str? && FindBeat(document, next, 0).Some?)
  {
    var next := Get(choice, "next", Null);
    var beats := BeatsOf(document).items;
    if !next.Null? && FindBeat(document, next, 0).None? {
      var i :| 0 <= i < |beats| && IdOf(beats[i]) == next;
      BeatsAreSound(document, i);
    }
  }

  /** The beat's `k`-th choice is `taken`, under that id. */
  predicate OfferedAt(beat: Json, choice: string, taken: Json, k: int) {
    var choices := Get(beat, "choices", NO_ITEMS);
    choices.Arr? && 0 <= k < |choices.items| && choices.items[k] == taken && IdOf(taken) == Str(choice)
  }

  /** The beat offers this choice under that id. */
  ghost predicate Offers(document: Json, beat: string, choice: string, taken: Json)
    requires BeatsOf(document).Arr?
  {
    exists b, k ::
      && 0 <= b < |BeatsOf(document).items| && IdOf(BeatsOf(document).items[b]) == Str(beat)
      && OfferedAt(BeatsOf(document).items[b], choice, taken, k)
  }

  /** `next` is where the choice leads: the beat it names, or nowhere. */
  predicate Follows(document: Json, taken: Json, next: Option<nat>)
    requires BeatsOf(document).Arr?
  {
    if Get(taken, "next", Null).Null? then next.None?
    else
      next.Some? && next.value < |BeatsOf(document).items|
      && IdOf(BeatsOf(document).items[next.value]) == Get(taken, "next", Null)
  }

  /** The choice that is found is one the beat offers, with actions that apply and a next beat that resolves. */
  lemma ChosenIsGood(document: Json, b: nat, beat: string, choice: string)
    requires ValidDocument(document) && b < |BeatsOf(document).items| && IdOf(BeatsOf(document).items[b]) == Str(beat)
    requires Get(BeatsOf(document).items[b], "choices", NO_ITEMS).Arr?
    requires FindChoice(Get(BeatsOf(document).items[b], "choices", NO_ITEMS).items, choice).Some?
    ensures var taken := FindChoice(Get(BeatsOf(document).items[b], "choices", NO_ITEMS).items, choice).value;
      var actions, next := Get(taken, "actions", NO_ITEMS), Get(taken, "next", Null);
      && Offers(document, beat, choice, taken)
      && actions.Arr? && (forall i :: 0 <= i < |actions.items| ==> GoodAction(actions.items[i]))
      && (next.Null? || (next.Str? && FindBeat(document, next, 0).Some?))
  {
    var beats := BeatsOf(document).items;
    var choices := Get(beats[b], "choices", NO_ITEMS).items;
    ChosenIsOne(choices, choice);
    var i :| 0 <= i < |choices| && choices[i] == FindChoice(choices, choice).value;
    assert GoodBeat(beats[b]) && GoodNexts(beats, choices);
    assert GoodChoice(choices[i]) && GoodNext(beats, choices[i]);
    assert OfferedAt(beats[b], choice, choices[i], i);
    NextResolves(document, choices[i]);
  }

  lemma {:induction false} NoChoiceFound(choices: seq<Json>, id: string)
    requires FindChoice(choices, id).None?
    ensures forall k :: 0 <= k < |choices| ==> IdOf(choices[k]) != Str(id)
  {
    if choices != [] {
      NoChoiceFound(choices[1..], id);
      forall k | 0 <= k < |choices| ensures IdOf(choices[k]) != Str(id) {
        if k > 0 { assert choices[k] == choices[1..][k - 1]; }
      }
    }
  }

  /** A valid document has at most one choice to offer under an id. */
  lemma OffersOne(document: Json, beat: string, choice: string, x: Json, y: Json)
    requires ValidDocument(document) && Offers(document, beat, choice, x) && Offers(document, beat, choice, y)
    ensures x == y
  {
    var beats := BeatsOf(document).items;
    var a, i :| 0 <= a < |beats| && IdOf(beats[a]) == Str(beat) && OfferedAt(beats[a], choice, x, i);
    var b, j :| 0 <= b < |beats| && IdOf(beats[b]) == Str(beat) && OfferedAt(beats[b], choice, y, j);
    DistinctIds(document, a, b);
    BeatsAreSound(document, a);
    SameChoice(beats[a], choice, x, y, i, j);
  }

  lemma SameChoice(beat: Json, choice: string, x: Json, y: Json, i: nat, j: nat)
    requires GoodBeat(beat) && OfferedAt(beat, choice, x, i) && OfferedAt(beat, choice, y, j)
    ensures x == y
  {
    var choices := Get(beat, "choices", NO_ITEMS).items;
    assert FreshId(choices, i) && FreshId(choices, j);
  }

  lemma NothingOffered(document: Json, b: nat, beat: string, choice: string)
    requires ValidDocument(document) && b < |BeatsOf(document).items| && IdOf(BeatsOf(document).items[b]) == Str(beat)
    requires Get(BeatsOf(document).items[b], "choices", NO_ITEMS).Arr?
    requires FindChoice(Get(BeatsOf(document).items[b], "choices", NO_ITEMS).items, choice).None?
    ensures forall taken :: !Offers(document, beat, choice, taken)
  {
    var beats := BeatsOf(document).items;
    NoChoiceFound(Get(beats[b], "choices", NO_ITEMS).items, choice);
    forall taken ensures !Offers(document, beat, choice, taken) {
      if Offers(document, beat, choice, taken) {
        var a, k :| 0 <= a < |beats| && IdOf(beats[a]) == Str(beat) && OfferedAt(beats[a], choice, taken, k);
        DistinctIds(document, a, b);
      }
    }
  }

  lemma FoundBeat(document: Json, beat: string)
    requires ValidDocument(document)
    ensures FindBeat(document, Str(beat), 0).Some? <==> NamesBeat(BeatsOf(document).items, Str(beat))
  {
    forall i | 0 <= i < |BeatsOf(document).items| ensures BeatsOf(document).items[i].Obj? {
      BeatsAreSound(document, i);
    }
  }

  /**
   `advance_choice` succeeds exactly when the beat exists, offers the choice, and no action of the choice moves
   several items; what it raises says which of the three is missing. Its answer is the choice's explicit next
   beat, which always resolves, or none; the new state is well shaped, forgets nothing and has the beat as heard.
   */
  lemma AdvanceNeverStuck(document: Json, state: Json, beat: string, choice: string)
    requires ValidDocument(document) && WellShaped(state)
    ensures match AdvanceChoice(document, state, beat, choice)
      case Ok((after, next)) =>
        && WellShaped(after) && Remembers(state, after)
        && HeardIn(Get(after, "dialogue_heard", NO_ITEMS).items, IdOf(document), Str(beat))
        && exists taken ::
             && Offers(document, beat, choice, taken) && Follows(document, taken, next)
             && !SomeMovesSeveral(Get(taken, "actions", NO_ITEMS).items)
      case Err(UnknownBeat(id)) => id == beat && !NamesBeat(BeatsOf(document).items, Str(beat))
      case Err(UnknownChoice(id)) =>
        id == choice && NamesBeat(BeatsOf(document).items, Str(beat))
        && forall taken :: !Offers(document, beat, choice, taken)
      case Err(QuantityNotOne) =>
        exists taken :: Offers(document, beat, choice, taken) && SomeMovesSeveral(Get(taken, "actions", NO_ITEMS).items)
      case Err(Broken) => false
  {
    FoundBeat(document, beat);
    var at := FindBeat(document, Str(beat), 0);
    if at.Some? {
      BeatsAreSound(document, at.value);
      var choices := Get(BeatsOf(document).items[at.value], "choices", NO_ITEMS).items;
      var chosen := FindChoice(choices, choice);
      if chosen.None? {
        NothingOffered(document, at.value, beat, choice);
      } else {
        ChosenIsGood(document, at.value, beat, choice);
        ChosenAdvances(document, state, beat, choice, chosen.value);
      }
    }
  }

  /** The rest of `advance_choice`, once beat and choice are found. */
  lemma ChosenAdvances(document: Json, state: Json, beat: string, choice: string, taken: Json)
    requires ValidDocument(document) && WellShaped(state) && FindBeat(document, Str(beat), 0).Some?
    requires var choices := Get(BeatsOf(document).items[FindBeat(document, Str(beat), 0).value], "choices", NO_ITEMS);
      choices.Arr? && FindChoice(choices.items, choice) == Some(taken)
    requires Get(taken, "actions", NO_ITEMS).Arr?
    requires forall a :: a in Get(taken, "actions", NO_ITEMS).items ==> GoodAction(a)
    requires var next := Get(taken, "next", Null); next.Null? || (next.Str? && FindBeat(document, next, 0).Some?)
    ensures var r, several := AdvanceChoice(document, state, beat, choice),
      SomeMovesSeveral(Get(taken, "actions", NO_ITEMS).items);
      if r.Ok? then
        && !several && WellShaped(r.value.0) && Remembers(state, r.value.0)
        && HeardIn(Get(r.value.0, "dialogue_heard", NO_ITEMS).items, IdOf(document), Str(beat))
        && Follows(document, taken, r.value.1)
      else several && r.error == QuantityNotOne
  {
    RecordKeeps(document, state, beat);
    var heard := RecordHeard(document, state, beat).value;
    var actions := Get(taken, "actions", NO_ITEMS).items;
    GoodActionsApply(heard, actions);
    if ApplyActions(heard, actions).Ok? {
      StillHeard(heard, ApplyActions(heard, actions).value, IdOf(document), Str(beat));
    }
  }

  // What an action does, a condition sees.

  /** A condition on one key of its vocabulary, read as a question to the state. */
  function Ask(key: string, reference: Json): Json { Obj(map[key := reference]) }

  /** The answers on `key` change for this reference only, to `answer`. */
  ghost predicate Answers(before: Json, after: Json, key: string, reference: Json, answer: bool) {
    && ConditionValue(Ask(key, reference), after) == Ok(answer)
    && forall other: Json :: other.Str? && other != reference ==>
         ConditionValue(Ask(key, other), after) == ConditionValue(Ask(key, other), before)
  }

  /** Nothing but the memory under `key` has changed. */
  ghost predicate OnlyTouches(before: Json, after: Json, key: string) {
    before.Obj? && after.Obj? && before.fields - {key} == after.fields - {key}
  }

  lemma AskedKeys()
    ensures "fact" != "npc_met" && "fact" != "item_owned" && "npc_met" != "item_owned"
    ensures "dialogue_heard" != "item_owned" && "fact" != "dialogue_heard" && "npc_met" != "dialogue_heard"
  {
    assert |"fact"| == 4 && |"npc_met"| == 7 && |"item_owned"| == 10 && |"dialogue_heard"| == 14;
  }

  lemma ListAnswers(state: Json, key: string, items: seq<Json>, reference: Json, answer: bool)
    requires WellShaped(state) && (key == "npc_met" || key == "item_owned")
    requires forall v :: v in items <==> if v == reference then answer else v in Get(state, key, NO_ITEMS).items
    ensures Answers(state, Set(state, key, Arr(items)), key, reference, answer)
    ensures OnlyTouches(state, Set(state, key, Arr(items)), key)
  {
    AskedKeys();
  }

  lemma FactAnswers(state: Json, fact: string, value: bool)
    requires WellShaped(state)
    ensures var after := Set(state, "facts", Obj(Get(state, "facts", NO_FIELDS).fields[fact := Bool(value)]));
      Answers(state, after, "fact", Str(fact), value) && OnlyTouches(state, after, "facts")
  {
  }

  /**
   An action that succeeds gives the condition about its subject the new answer, every other condition of that
   kind the old one, and leaves the other memories alone.
   */
  lemma ActionIsSeen(state: Json, action: Json)
    requires WellShaped(state) && GoodAction(action) && ApplyAction(state, action).Ok?
    ensures var kind, after := Supported(action, ACTIONS)[0], ApplyAction(state, action).value;
      var data := Get(action, kind, Null);
      && (kind == "set_fact" ==>
            Answers(state, after, "fact", Get(data, "fact", Null), Get(data, "value", Null) == Bool(true))
            && OnlyTouches(state, after, "facts"))
      && (kind == "mark_npc_met" ==>
        Answers(state, after, "npc_met", data, true) && OnlyTouches(state, after, "npc_met"))
      && (kind == "give_item" ==>
            Answers(state, after, "item_owned", Get(data, "item", Null), true)
              && OnlyTouches(state, after, "item_owned"))
      && (kind == "remove_item" ==>
            Answers(state, after, "item_owned", Get(data, "item", Null), false)
              && OnlyTouches(state, after, "item_owned"))
      && (kind == "grant_ability" ==> OnlyTouches(state, after, "ability_granted"))
  {
    ActionKinds(action);
    var kind := Supported(action, ACTIONS)[0];
    var data := action.fields[kind];
    assert GoodActionData(kind, data);
    if kind == "set_fact" {
      FactAnswers(state, data.fields["fact"].s, data.fields["value"].b);
    } else if kind == "mark_npc_met" {
      MarkAnswers(state, "npc_met", data);
    } else if kind == "give_item" {
      MarkAnswers(state, "item_owned", data.fields["item"]);
    } else if kind == "remove_item" {
      var items := Get(state, "item_owned", NO_ITEMS).items;
      ListAnswers(state, "item_owned", Without(items, data.fields["item"]), data.fields["item"], false);
    }
  }

  lemma MarkAnswers(state: Json, key: string, v: Json)
    requires WellShaped(state) && (key == "npc_met" || key == "item_owned")
    ensures AppendUnique(state, key, v).Ok?
    ensures Answers(state, AppendUnique(state, key, v).value, key, v, true)
    ensures OnlyTouches(state, AppendUnique(state, key, v).value, key)
  {
    var items := Get(state, key, NO_ITEMS).items;
    ListAnswers(state, key, if v in items then items else items + [v], v, true);
  }

  // One-shots.

  datatype Op = CompleteOp(beat: string) | AdvanceOp(beat: string, choice: string)

  /** One request of the preview; a raised error leaves the state. */
  function Perform(document: Json, state: Json, op: Op): Json {
    match op
    case CompleteOp(beat) => var r := Complete(document, state, beat); if r.Ok? then r.value else state
    case AdvanceOp(beat, choice) => var r := AdvanceChoice(document, state, beat, choice);
      if r.Ok? then r.value.0 else state
  }

  function PerformAll(document: Json, state: Json, ops: seq<Op>): Json
    decreases |ops|
  {
    if ops == [] then state else PerformAll(document, Perform(document, state, ops[0]), ops[1..])
  }

  lemma {:induction false} RunsRemember(document: Json, state: Json, ops: seq<Op>)
    requires ValidDocument(document) && WellShaped(state)
    ensures WellShaped(PerformAll(document, state, ops)) && Remembers(state, PerformAll(document, state, ops))
    decreases |ops|
  {
    if ops != [] {
      match ops[0] {
        case CompleteOp(beat) => CompleteNeverStuck(document, state, beat);
        case AdvanceOp(beat, choice) => AdvanceNeverStuck(document, state, beat, choice);
      }
      RunsRemember(document, Perform(document, state, ops[0]), ops[1..]);
    }
  }

  predicate Heard(document: Json, state: Json, beat: Json) {
    Get(state, "dialogue_heard", NO_ITEMS).Arr?
      && HeardIn(Get(state, "dialogue_heard", NO_ITEMS).items, IdOf(document), IdOf(beat))
  }

  lemma HeardOneShotIsOut(document: Json, state: Json, beat: Json)
    requires OneShot(beat) && Heard(document, state, beat)
    ensures !Eligible(document, beat, state)
  {
    assert PoolOf(beat) == Str("once") || PoolOf(beat) == Str("lore");
    assert "once" != "rare" && "lore" != "rare" by { assert "once"[0] == 'o' && "lore"[0] == 'l' && "rare"[0] == 'r'; }
  }

  /** A once or lore beat that has been heard is never selected again, whatever is done afterwards. */
  lemma OneShotsAreOneShot(document: Json, state: Json, ops: seq<Op>)
    requires ValidDocument(document) && WellShaped(state)
    ensures var beats, later := BeatsOf(document).items, PerformAll(document, state, ops);
      && Selected(document, later).Ok?
      && forall i :: 0 <= i < |beats| && OneShot(beats[i]) && Heard(document, state, beats[i]) ==>
           Selected(document, later).value != Some(i)
  {
    RunsRemember(document, state, ops);
    var later := PerformAll(document, state, ops);
    SelectNeverRaises(document, later);
    SelectsFirstBest(document, later);
    var beats := BeatsOf(document).items;
    forall i | 0 <= i < |beats| && OneShot(beats[i]) && Heard(document, state, beats[i])
      ensures Selected(document, later).value != Some(i)
    {
      StillHeard(state, later, IdOf(document), IdOf(beats[i]));
      HeardOneShotIsOut(document, later, beats[i]);
    }
  }

  /** The request was not refused. */
  predicate Succeeds(document: Json, state: Json, op: Op) {
    match op
    case CompleteOp(beat) => Complete(document, state, beat).Ok?
    case AdvanceOp(beat, choice) => AdvanceChoice(document, state, beat, choice).Ok?
  }

  /** Completing a beat and advancing past it both count as hearing it, so neither is selected a second time. */
  lemma FinishedIsHeard(document: Json, state: Json, op: Op, ops: seq<Op>)
    requires ValidDocument(document) && WellShaped(state) && Succeeds(document, state, op)
    ensures var beats, after := BeatsOf(document).items, Perform(document, state, op);
      forall i :: 0 <= i < |beats| && IdOf(beats[i]) == Str(op.beat) ==>
        && Heard(document, after, beats[i])
        && (OneShot(beats[i]) ==> Selected(document, PerformAll(document, after, ops)) != Ok(Some(i)))
  {
    match op {
      case CompleteOp(beat) => CompleteNeverStuck(document, state, beat);
      case AdvanceOp(beat, choice) => AdvanceNeverStuck(document, state, beat, choice);
    }
    OneShotsAreOneShot(document, Perform(document, state, op), ops);
  }

  lemma StillHeard(before: Json, after: Json, npc: Json, beat: Json)
    requires Remembers(before, after) && HeardIn(Get(before, "dialogue_heard", NO_ITEMS).items, npc, beat)
    ensures HeardIn(Get(after, "dialogue_heard", NO_ITEMS).items, npc, beat)
  {
    var items := Get(before, "dialogue_heard", NO_ITEMS).items;
    var i :| 0 <= i < |items| && IsHeard(items[i], npc, beat);
    assert Get(after, "dialogue_heard", NO_ITEMS).items[i] == items[i];
  }

  /** Entries that are all once or lore. */
  predicate OnlyOneShotEntries(document: Json) {
    BeatsOf(document).Arr? && forall i :: 0 <= i < |BeatsOf(document).items| ==>
      Get(BeatsOf(document).items[i], "entry", Null) == Bool(true) ==> OneShot(BeatsOf(document).items[i])
  }

  ghost function Unheard(document: Json, state: Json): set<int>
    requires BeatsOf(document).Arr?
  {
    set i | 0 <= i < |BeatsOf(document).items| && !Heard(document, state, BeatsOf(document).items[i])
  }

  /** The state after `n` rounds of select and complete. */
  function Rounds(document: Json, state: Json, n: nat): Json {
    if n == 0 then state
    else
      var before := Rounds(document, state, n - 1);
      var w := Selected(document, before);
      if w.Err? || w.value.None? || !BeatsOf(document).Arr? || w.value.value >= |BeatsOf(document).items| then before
      else
        var id := IdOf(BeatsOf(document).items[w.value.value]);
        if !id.Str? then before else Perform(document, before, CompleteOp(id.s))
  }

  lemma RoundHears(document: Json, state: Json, n: nat)
    requires ValidDocument(document) && OnlyOneShotEntries(document) && WellShaped(Rounds(document, state, n))
    ensures WellShaped(Rounds(document, state, n + 1))
    ensures Selected(document, Rounds(document, state, n)).Ok?
    ensures Selected(document, Rounds(document, state, n)).value.Some? ==>
      |Unheard(document, Rounds(document, state, n + 1))| < |Unheard(document, Rounds(document, state, n))|
  {
    var now, next := Rounds(document, state, n), Rounds(document, state, n + 1);
    SelectNeverRaises(document, now);
    SelectsFirstBest(document, now);
    var w := Selected(document, now).value;
    if w.Some? {
      var beats := BeatsOf(document).items;
      BeatsAreSound(document, w.value);
      var id := IdOf(beats[w.value]);
      CompleteNeverStuck(document, now, id.s);
      assert NamesBeat(beats, id);
      assert OneShot(beats[w.value]);
      if Heard(document, now, beats[w.value]) { HeardOneShotIsOut(document, now, beats[w.value]); }
      assert w.value in Unheard(document, now) && w.value !in Unheard(document, next);
      forall i | i in Unheard(document, next) ensures i in Unheard(document, now) {
        if Heard(document, now, beats[i]) { StillHeard(now, next, IdOf(document), IdOf(beats[i])); }
      }
      Shrinks(Unheard(document, next), Unheard(document, now));
    }
  }

  lemma Shrinks(a: set<int>, b: set<int>)
    requires a < b
    ensures |a| < |b|
  {
    assert b == a + (b - a);
  }

  lemma UnheardBounded(document: Json, state: Json, n: nat)
    requires BeatsOf(document).Arr? && n <= |BeatsOf(document).items|
    ensures |set i | 0 <= i < n && !Heard(document, state, BeatsOf(document).items[i])| <= n
  {
    if n > 0 {
      UnheardBounded(document, state, n - 1);
      var beats := BeatsOf(document).items;
      var a := set i | 0 <= i < n - 1 && !Heard(document, state, beats[i]);
      var b := set i | 0 <= i < n && !Heard(document, state, beats[i]);
      assert b <= a + {n - 1};
      SubsetCardinality(b, a + {n - 1});
    }
  }

  lemma {:induction false} StopsWithin(document: Json, state: Json, n: nat) returns (rounds: nat)
    requires ValidDocument(document) && OnlyOneShotEntries(document) && WellShaped(Rounds(document, state, n))
    ensures rounds <= n + |Unheard(document, Rounds(document, state, n))|
    ensures Selected(document, Rounds(document, state, rounds)) == Ok(None)
    decreases |Unheard(document, Rounds(document, state, n))|
  {
    RoundHears(document, state, n);
    if Selected(document, Rounds(document, state, n)).value.None? {
      rounds := n;
    } else {
      rounds := StopsWithin(document, state, n + 1);
    }
  }

  /** Selecting and completing over once and lore entries only ends within as many rounds as there are beats. */
  lemma OneShotLoopStops(document: Json, state: Json)
    requires ValidDocument(document) && OnlyOneShotEntries(document) && WellShaped(state)
    ensures exists rounds: nat ::
      rounds <= |BeatsOf(document).items| && Selected(document, Rounds(document, state, rounds)) == Ok(None)
  {
    var rounds := StopsWithin(document, state, 0);
    UnheardBounded(document, state, |BeatsOf(document).items|);
  }
}
