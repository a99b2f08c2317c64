/** Dialogue selection and synthetic progression of `tools/npc_lab/selection.py`, with its raised errors. */
module NpcSelection {
  import opened Basics
  import opened NpcDocument

  /** What the code raises. `Broken` is every error a validated document and well shaped state must not meet. */
  datatype Error = UnknownBeat(id: string) | UnknownChoice(id: string) | QuantityNotOne | Broken

  datatype Result<+T> = Ok(value: T) | Err(error: Error)

  // Reading the synthetic state.

  /** Facts are an object and the five memories are lists, where present. */
  predicate WellShaped(state: Json) {
    && state.Obj?
    && Get(state, "facts", NO_FIELDS).Obj?
    && Get(state, "npc_met", NO_ITEMS).Arr?
    && Get(state, "dialogue_heard", NO_ITEMS).Arr?
    && Get(state, "item_owned", NO_ITEMS).Arr?
    && Get(state, "item_equipped", NO_ITEMS).Arr?
    && Get(state, "ability_granted", NO_ITEMS).Arr?
  }

  predicate Truthy(v: Json) {
    match v
    case Null => false
    case Bool(b) => b
    case Int(n) => n != 0
    case Float(x) => x != 0.0
    case Str(s) => s != ""
    case Arr(items) => items != []
    case Obj(fields) => fields != map[]
  }

  predicate IsHeard(v: Json, npc: Json, beat: Json) {
    v.Obj? && Get(v, "npc", Null) == npc && Get(v, "beat", Null) == beat
  }

  predicate HeardIn(items: seq<Json>, npc: Json, beat: Json) {
    exists i :: 0 <= i < |items| && IsHeard(items[i], npc, beat)
  }

  /** `_contains_dialogue_heard` */
  function ContainsHeard(state: Json, npc: Json, beat: Json): Result<bool> {
    var heard := Get(state, "dialogue_heard", NO_ITEMS);
    if !heard.Arr? then Err(Broken) else Ok(HeardIn(heard.items, npc, beat))
  }

  function InList(state: Json, key: string, v: Json): Result<bool> {
    var list := Get(state, key, NO_ITEMS);
    if !list.Arr? then Err(Broken) else Ok(v in list.items)
  }

  /** `condition_value` */
  function ConditionValue(c: Json, state: Json): Result<bool> {
    if !c.Obj? || !state.Obj? then Err(Broken)
    else if Has(c, "fact") then
      var facts := Get(state, "facts", NO_FIELDS);
      if !facts.Obj? then Ok(false)
      else if !c.fields["fact"].Str? then Err(Broken)
      else Ok(Truthy(Get(facts, c.fields["fact"].s, Bool(false))))
    else if Has(c, "npc_met") then InList(state, "npc_met", c.fields["npc_met"])
    else if Has(c, "dialogue_heard") then
      var reference := c.fields["dialogue_heard"];
      if !Has(reference, "npc") || !Has(reference, "beat") then Err(Broken)
      else ContainsHeard(state, reference.fields["npc"], reference.fields["beat"])
    else if Has(c, "item_owned") then InList(state, "item_owned", c.fields["item_owned"])
    else if Has(c, "item_equipped") then InList(state, "item_equipped", c.fields["item_equipped"])
    else Err(Broken)
  }

  /** `condition_matches` */
  function ConditionMatches(c: Json, state: Json): Result<bool> {
    if !Get(c, "equals", Null).Bool? then Err(Broken)
    else
      var v := ConditionValue(c, state);
      if v.Err? then v else Ok(v.value == Get(c, "equals", Null).b)
  }

  /** `all(...)` over the conditions, stopping at the first that fails. */
  function AllMatch(conditions: seq<Json>, state: Json): Result<bool> {
    if conditions == [] then Ok(true)
    else
      var first := ConditionMatches(conditions[0], state);
      if first.Err? || !first.value then first else AllMatch(conditions[1..], state)
  }

  /** The pool of a beat; none means mandatory. */
  function PoolOf(beat: Json): Json {
    var pool := Get(beat, "pool", Null);
    if pool.Null? then Str("mandatory") else pool
  }

  predicate OneShot(beat: Json) { PoolOf(beat) == Str("once") || PoolOf(beat) == Str("lore") }

  /** `pool_allows_selection` */
  function PoolAllows(document: Json, beat: Json, state: Json): Result<bool> {
    var pool := PoolOf(beat);
    if !pool.Str? || pool.s !in POOLS then Err(Broken)
    else if pool.s == "rare" then Ok(false)
    else if pool.s == "once" || pool.s == "lore" then
      if !IdOf(document).Str? || !IdOf(beat).Str? then Err(Broken)
      else
        var heard := ContainsHeard(state, IdOf(document), IdOf(beat));
        if heard.Err? then heard else Ok(!heard.value)
    else Ok(true)
  }

  /** `beat_matches` */
  function BeatMatches(document: Json, beat: Json, state: Json): Result<bool> {
    if Get(beat, "entry", Null) != Bool(true) then Ok(false)
    else if !Get(beat, "conditions", NO_ITEMS).Arr? then Err(Broken)
    else
      var all := AllMatch(Get(beat, "conditions", NO_ITEMS).items, state);
      if all.Err? || !all.value then all else PoolAllows(document, beat, state)
  }

  // Selecting.

  /** What one beat brings to the selection: nothing, its priority when it is eligible, or an error. */
  function Judge(document: Json, beat: Json, state: Json): Result<Option<int>> {
    if !beat.Obj? then Ok(None)
    else
      var matches := BeatMatches(document, beat, state);
      if matches.Err? then Err(matches.error)
      else if !matches.value then Ok(None)
      else if !Get(beat, "priority", Null).Int? then Err(Broken)
      else Ok(Some(Get(beat, "priority", Null).n))
  }

  function Judgements(document: Json, beats: seq<Json>, state: Json): seq<Result<Option<int>>> {
    seq(|beats|, i requires 0 <= i < |beats| => Judge(document, beats[i], state))
  }

  /** The running winner after the first `n` judgements; the first error ends it. */
  function Winner(marks: seq<Result<Option<int>>>, n: nat): (r: Result<Option<nat>>)
    requires n <= |marks|
    ensures r.Ok? && r.value.Some? ==> r.value.value < n && marks[r.value.value].Ok? && marks[r.value.value].value.Some?
  {
    if n == 0 then Ok(None)
    else
      var before := Winner(marks, n - 1);
      if before.Err? then before
      else if marks[n - 1].Err? then Err(marks[n - 1].error)
      else if marks[n - 1].value.None? then before
      else if before.value.None? || marks[n - 1].value.value > marks[before.value.value].value.value then
        Ok(Some(n - 1))
      else before
  }

  /** `select_entry_beat`; the winner is given by its position. */
  method SelectEntryBeat(document: Json, state: Json) returns (r: Result<Option<nat>>)
    ensures r == Selected(document, state)
  {
    if !BeatsOf(document).Arr? { return Err(Broken); }
    var beats := BeatsOf(document).items;
    ghost var marks := Judgements(document, beats, state);
    var winner: Option<nat> := None;
    var best := 0;
    for i := 0 to |beats|
      invariant Winner(marks, i) == Ok(winner)
      invariant winner.Some? ==> best == marks[winner.value].value.value
    {
      var mark := Judge(document, beats[i], state);
      assert mark == marks[i];
      WinnerStep(marks, i, winner, best);
      if mark.Err? { return Err(mark.error); }
      if mark.value.Some? && (winner.None? || mark.value.value > best) {
        winner, best := Some(i), mark.value.value;
      }
    }
    r := Ok(winner);
  }

  function Selected(document: Json, state: Json): Result<Option<nat>> {
    if !BeatsOf(document).Arr? then Err(Broken)
    else Winner(Judgements(document, BeatsOf(document).items, state), |BeatsOf(document).items|)
  }

  lemma {:induction false} ErrorStays(marks: seq<Result<Option<int>>>, m: nat, n: nat)
    requires m <= n <= |marks| && Winner(marks, m).Err?
    ensures Winner(marks, n) == Winner(marks, m)
  {
    if m < n { ErrorStays(marks, m, n - 1); }
  }

  /** One round of the selection: an error ends it, and only a greater priority replaces the winner so far. */
  lemma WinnerStep(marks: seq<Result<Option<int>>>, i: nat, winner: Option<nat>, best: int)
    requires i < |marks| && Winner(marks, i) == Ok(winner)
    requires winner.Some? ==> best == marks[winner.value].value.value
    ensures marks[i].Err? ==> Winner(marks, |marks|) == Err(marks[i].error)
    ensures marks[i].Ok? ==>
      Winner(marks, i + 1) ==
      Ok(if marks[i].value.Some? && (winner.None? || marks[i].value.value > best) then Some(i) else winner)
  {
    if marks[i].Err? { ErrorStays(marks, i + 1, |marks|); }
  }

  /** The beat takes part in the selection. */
  predicate Eligible(document: Json, beat: Json, state: Json) {
    beat.Obj? && BeatMatches(document, beat, state) == Ok(true)
  }

  predicate Marked(marks: seq<Result<Option<int>>>, i: nat) { i < |marks| && marks[i].Ok? && marks[i].value.Some? }

  /** The first position of greatest priority among the marked ones of the first `n`. */
  ghost predicate IsFirstBest(marks: seq<Result<Option<int>>>, n: nat, w: nat) {
    && w < n <= |marks| && Marked(marks, w)
    && (forall i: nat :: i < n && Marked(marks, i) ==> marks[i].value.value <= marks[w].value.value)
    && (forall i: nat :: i < w && Marked(marks, i) ==> marks[i].value.value < marks[w].value.value)
  }

  /** The winner is the first of maximal priority, and there is one if anything is marked. */
  lemma {:induction false} WinnerIsFirstBest(marks: seq<Result<Option<int>>>, n: nat)
    requires n <= |marks| && Winner(marks, n).Ok?
    ensures var w := Winner(marks, n).value;
      if w.None? then forall i: nat :: i < n ==> !Marked(marks, i) else IsFirstBest(marks, n, w.value)
    ensures forall i: nat :: i < n ==> marks[i].Ok?
  {
    if n > 0 { WinnerIsFirstBest(marks, n - 1); }
  }

  function PriorityOf(beat: Json): int { if Get(beat, "priority", Null).Int? then Get(beat, "priority", Null).n else 0 }

  /** `select_entry_beat` picks the first authored beat of maximal priority among the eligible ones. */
  lemma SelectsFirstBest(document: Json, state: Json)
    requires Selected(document, state).Ok?
    ensures var beats, w := BeatsOf(document).items, Selected(document, state).value;
      if w.None? then forall i :: 0 <= i < |beats| ==> !Eligible(document, beats[i], state)
      else
        && w.value < |beats| && Eligible(document, beats[w.value], state)
        && (forall i :: 0 <= i < |beats| && Eligible(document, beats[i], state) ==>
          PriorityOf(beats[i]) <= PriorityOf(beats[w.value]))
        && (forall i :: 0 <= i < w.value && Eligible(document, beats[i], state) ==>
          PriorityOf(beats[i]) < PriorityOf(beats[w.value]))
  {
    var beats := BeatsOf(document).items;
    var marks := Judgements(document, beats, state);
    WinnerIsFirstBest(marks, |beats|);
    forall i | 0 <= i < |beats|
      ensures Marked(marks, i) <==> Eligible(document, beats[i], state)
      ensures Marked(marks, i) ==> marks[i].value.value == PriorityOf(beats[i])
    {
      assert marks[i] == Judge(document, beats[i], state) && marks[i].Ok?;
    }
  }

  // Diagnostics.

  datatype Status = Continuation | RejectedStatus | WinnerStatus | EligibleStatus

  datatype Diagnostic = Diagnostic(id: Json, conditionsMatch: bool, allowed: bool, eligible: bool, status: Status)

  /** The `matched` flag of one condition; all of them are evaluated, and none may raise. */
  function EveryMatches(conditions: seq<Json>, state: Json): Result<bool> {
    if conditions == [] then Ok(true)
    else if !conditions[0].Obj? || !Has(conditions[0], "equals") then Err(Broken)
    else
      var v := ConditionValue(conditions[0], state);
      if v.Err? then v
      else
        var rest := EveryMatches(conditions[1..], state);
        if rest.Err? then rest else Ok(Bool(v.value) == conditions[0].fields["equals"] && rest.value)
  }

  function Explain(document: Json, beat: Json, state: Json, winner: Option<Json>): Result<Diagnostic> {
    var entry := Get(beat, "entry", Null) == Bool(true);
    if !Get(beat, "conditions", NO_ITEMS).Arr? then Err(Broken)
    else
      var matching := EveryMatches(Get(beat, "conditions", NO_ITEMS).items, state);
      if matching.Err? then Err(matching.error)
      else
        var allowed := if entry then PoolAllows(document, beat, state) else Ok(false);
        if allowed.Err? then Err(allowed.error)
        else
          var status :=
            if !entry then Continuation
            else if !matching.value || !allowed.value then RejectedStatus
            else if winner == Some(IdOf(beat)) then WinnerStatus
            else EligibleStatus;
          Ok(Diagnostic(IdOf(beat), matching.value, allowed.value, entry && matching.value && allowed.value, status))
  }

  /** The beat loop of `explain_entry_selection`; beats that are not objects are skipped. */
  function ExplainAll(document: Json, beats: seq<Json>, state: Json, winner: Option<Json>,
      n: nat): Result<seq<Diagnostic>>
    requires n <= |beats|
  {
    if n == 0 then Ok([])
    else
      var before := ExplainAll(document, beats, state, winner, n - 1);
      if before.Err? || !beats[n - 1].Obj? then before
      else
        var one := Explain(document, beats[n - 1], state, winner);
        if one.Err? then Err(one.error) else Ok(before.value + [one.value])
  }

  function Explained(document: Json, state: Json): Result<seq<Diagnostic>> {
    var winner := Selected(document, state);
    if winner.Err? then Err(winner.error)
    else
      var beats := BeatsOf(document).items;
      ExplainAll(document, beats, state, if winner.value.Some? then Some(IdOf(beats[winner.value.value]))
        else None, |beats|)
  }

  /** `explain_entry_selection` */
  method ExplainEntrySelection(document: Json, state: Json) returns (r: Result<seq<Diagnostic>>)
    ensures r == Explained(document, state)
  {
    var winner := SelectEntryBeat(document, state);
    if winner.Err? { return Err(winner.error); }
    var beats := BeatsOf(document).items;
    var winnerId := if winner.value.Some? then Some(IdOf(beats[winner.value.value])) else None;
    var diagnostics: seq<Diagnostic> := [];
    for i := 0 to |beats|
      invariant ExplainAll(document, beats, state, winnerId, i) == Ok(diagnostics)
    {
      if beats[i].Obj? {
        var one := Explain(document, beats[i], state, winnerId);
        if one.Err? {
          ExplainErrorStays(document, beats, state, winnerId, i + 1, |beats|);
          return Err(one.error);
        }
        diagnostics := diagnostics + [one.value];
      }
    }
    r := Ok(diagnostics);
  }

  lemma {:induction false} ExplainErrorStays(document: Json, beats: seq<Json>, state: Json, winner: Option<Json>,
      m: nat, n: nat)
    requires m <= n <= |beats| && ExplainAll(document, beats, state, winner, m).Err?
    ensures ExplainAll(document, beats, state, winner, n) == ExplainAll(document, beats, state, winner, m)
  {
    if m < n { ExplainErrorStays(document, beats, state, winner, m, n - 1); }
  }

  // Progress.

  function FindBeat(document: Json, id: Json, from: nat): (r: Option<nat>)
    requires BeatsOf(document).Arr?
    ensures r.Some? ==>
      (from <= r.value < |BeatsOf(document).items| && BeatsOf(document).items[r.value].Obj?
       && IdOf(BeatsOf(document).items[r.value]) == id)
    ensures r.None? ==>
      (forall i :: from <= i < |BeatsOf(document).items| && BeatsOf(document).items[i].Obj? ==>
         IdOf(BeatsOf(document).items[i]) != id)
    decreases |BeatsOf(document).items| - from
  {
    var beats := BeatsOf(document).items;
    if from >= |beats| then None
    else if beats[from].Obj? && IdOf(beats[from]) == id then Some(from)
    else FindBeat(document, id, from + 1)
  }

  function Set(state: Json, key: string, v: Json): Json
    requires state.Obj?
  {
    Obj(state.fields[key := v])
  }

  /** `_append_unique` */
  function AppendUnique(state: Json, key: string, v: Json): Result<Json> {
    if !state.Obj? || !Get(state, key, NO_ITEMS).Arr? then Err(Broken)
    else
      var items := Get(state, key, NO_ITEMS).items;
      Ok(Set(state, key, Arr(if v in items then items else items + [v])))
  }

  /** `_record_dialogue_heard` */
  function RecordHeard(document: Json, state: Json, beat: string): Result<Json> {
    if !IdOf(document).Str? || !state.Obj? || !Get(state, "dialogue_heard", NO_ITEMS).Arr? then Err(Broken)
    else
      var items := Get(state, "dialogue_heard", NO_ITEMS).items;
      var entry := Obj(map["npc" := IdOf(document), "beat" := Str(beat)]);
      Ok(Set(state, "dialogue_heard",
        Arr(if HeardIn(items, IdOf(document), Str(beat)) then items else items + [entry])))
  }

  /** `while item in items: items.remove(item)` */
  function Without(items: seq<Json>, v: Json): (r: seq<Json>)
    ensures v !in r && forall x :: x in r <==> x in items && x != v
  {
    if items == [] then []
    else (if items[0] == v then [] else [items[0]]) + Without(items[1..], v)
  }

  function ApplyItem(state: Json, data: Json, give: bool): Result<Json> {
    if !state.Obj? || !Has(data, "quantity") || !Has(data, "item") then Err(Broken)
    else if data.fields["quantity"] != Int(1) then Err(QuantityNotOne)
    else if !Get(state, "item_owned", NO_ITEMS).Arr? then Err(Broken)
    else if give then AppendUnique(state, "item_owned", data.fields["item"])
    else Ok(Set(state, "item_owned", Arr(Without(Get(state, "item_owned", NO_ITEMS).items, data.fields["item"]))))
  }

  function ApplyAction(state: Json, action: Json): Result<Json> {
    if !action.Obj? || !state.Obj? then Err(Broken)
    else if Has(action, "set_fact") then
      var data, facts := action.fields["set_fact"], Get(state, "facts", NO_FIELDS);
      if !facts.Obj? || !Has(data, "fact") || !Has(data, "value") || !data.fields["fact"].Str? then Err(Broken)
      else Ok(Set(state, "facts", Obj(facts.fields[data.fields["fact"].s := data.fields["value"]])))
    else if Has(action, "mark_npc_met") then AppendUnique(state, "npc_met", action.fields["mark_npc_met"])
    else if Has(action, "grant_ability") then
      if !Has(action.fields["grant_ability"], "ability") then Err(Broken)
      else AppendUnique(state, "ability_granted", action.fields["grant_ability"].fields["ability"])
    else if Has(action, "give_item") then ApplyItem(state, action.fields["give_item"], true)
    else if Has(action, "remove_item") then ApplyItem(state, action.fields["remove_item"], false)
    else Err(Broken)
  }

  function ApplyActions(state: Json, actions: seq<Json>): Result<Json>
    decreases |actions|
  {
    if actions == [] then Ok(state)
    else
      var next := ApplyAction(state, actions[0]);
      if next.Err? then next else ApplyActions(next.value, actions[1..])
  }

  /** `_apply_actions` on the copied state. */
  method RunActions(state: Json, actions: seq<Json>) returns (r: Result<Json>)
    ensures r == ApplyActions(state, actions)
  {
    var next := state;
    var i := 0;
    while i < |actions|
      invariant 0 <= i <= |actions|
      invariant ApplyActions(state, actions) == ApplyActions(next, actions[i..])
    {
      assert actions[i..][0] == actions[i] && actions[i..][1..] == actions[i + 1..];
      var one := ApplyAction(next, actions[i]);
      if one.Err? { return one; }
      next := one.value;
      i := i + 1;
    }
    r := Ok(next);
  }

  /** `complete_beat` */
  function Complete(document: Json, state: Json, beat: string): Result<Json> {
    if !BeatsOf(document).Arr? then Err(Broken)
    else if FindBeat(document, Str(beat), 0).None? then Err(UnknownBeat(beat))
    else RecordHeard(document, state, beat)
  }

  function FindChoice(choices: seq<Json>, id: string): Option<Json> {
    if choices == [] then None
    else if choices[0].Obj? && IdOf(choices[0]) == Str(id) then Some(choices[0])
    else FindChoice(choices[1..], id)
  }

  /** `advance_choice`: the next state and the index of the explicit next beat. */
  function AdvanceChoice(document: Json, state: Json, beat: string, choice: string): Result<(Json, Option<nat>)> {
    if !BeatsOf(document).Arr? then Err(Broken)
    else
      var at := FindBeat(document, Str(beat), 0);
      if at.None? then Err(UnknownBeat(beat))
      else
        var choices := Get(BeatsOf(document).items[at.value], "choices", NO_ITEMS);
        if !choices.Arr? then Err(Broken)
        else
          var chosen := FindChoice(choices.items, choice);
          if chosen.None? then Err(UnknownChoice(choice))
          else
            var heard := RecordHeard(document, state, beat);
            if heard.Err? then Err(heard.error)
            else if !Get(chosen.value, "actions", NO_ITEMS).Arr? then Err(Broken)
            else
              var acted := ApplyActions(heard.value, Get(chosen.value, "actions", NO_ITEMS).items);
              if acted.Err? then Err(acted.error)
              else
                var next := Get(chosen.value, "next", Null);
                if next.Null? then Ok((acted.value, None))
                else if !next.Str? then Err(Broken)
                else
                  var target := FindBeat(document, next, 0);
                  if target.None? then Err(UnknownBeat(next.s)) else Ok((acted.value, target))
  }
}
