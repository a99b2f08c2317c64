/**
 NPC documents as parsed JSON, and the validator of `tools/npc_lab/server.py` with the pool check of
 `tools/npc_lab/server_n6.py`.
 */
module NpcDocument {
  import opened Basics

  /** A parsed JSON value; integers and other numbers are apart, as `isinstance(x, int)` sees them. */
  datatype Json =
    | Null | Bool(b: bool) | Int(n: int) | Float(x: real) | Str(s: string)
    | Arr(items: seq<Json>) | Obj(fields: map<string, Json>)

  const NO_ITEMS: Json := Arr([])
  const NO_FIELDS: Json := Obj(map[])

  predicate Has(v: Json, key: string) { v.Obj? && key in v.fields }

  /** `v.get(key, default)` on an object. */
  function Get(v: Json, key: string, default: Json): Json { if Has(v, key) then v.fields[key] else default }

  /** `c.isspace()` */
  predicate Whitespace(c: char) { Space(c) || 0x1C <= c as int <= 0x1F || c as int == 0x85 }

  /** `not s.strip()` */
  predicate Blank(s: string) { forall i :: 0 <= i < |s| ==> Whitespace(s[i]) }

  predicate Filled(v: Json) { v.Str? && !Blank(v.s) }

  predicate StartsWith(v: Json, prefix: string) { v.Str? && prefix <= v.s }

  predicate EndsWith(s: string, suffix: string) { |suffix| <= |s| && s[|s| - |suffix|..] == suffix }

  // What the validator accepts, stated without loops.

  const CONDITIONS := ["fact", "npc_met", "dialogue_heard", "item_owned", "item_equipped"]
  const ACTIONS := ["set_fact", "mark_npc_met", "give_item", "remove_item", "grant_ability"]
  const POOLS := ["mandatory", "once", "repeatable", "rare", "lore"]

  /** The keys of `kinds` that the object has, in that order. */
  function Supported(v: Json, kinds: seq<string>): seq<string> {
    if kinds == [] then []
    else (if Has(v, kinds[0]) then [kinds[0]] else []) + Supported(v, kinds[1..])
  }

  predicate EncodesMet(v: Json) { v.Str? && "npc." <= v.s && EndsWith(v.s, ".met") }

  predicate GoodReference(kind: string, reference: Json) {
    match kind
    case "fact" => Filled(reference) && !EncodesMet(reference)
    case "npc_met" => StartsWith(reference, "npc.")
    case "dialogue_heard" =>
      reference.Obj? && StartsWith(Get(reference, "npc", Null), "npc.") && Filled(Get(reference, "beat", Null))
    case _ => StartsWith(reference, "item.")
  }

  predicate GoodCondition(v: Json) {
    v.Obj? && |Supported(v, CONDITIONS)| == 1 && Get(v, "equals", Null).Bool?
    && GoodReference(Supported(v, CONDITIONS)[0], Get(v, Supported(v, CONDITIONS)[0], Null))
  }

  predicate GoodActionData(kind: string, data: Json) {
    match kind
    case "mark_npc_met" => StartsWith(data, "npc.")
    case "set_fact" =>
      data.Obj? && Filled(Get(data, "fact", Null)) && !EncodesMet(Get(data, "fact", Null))
        && Get(data, "value", Null).Bool?
    case "grant_ability" => data.Obj? && Filled(Get(data, "ability", Null))
    case _ =>
      data.Obj? && StartsWith(Get(data, "item", Null), "item.")
      && Get(data, "quantity", Null).Int? && Get(data, "quantity", Null).n >= 1
  }

  predicate GoodAction(v: Json) {
    v.Obj? && |Supported(v, ACTIONS)| == 1
    && GoodActionData(Supported(v, ACTIONS)[0], Get(v, Supported(v, ACTIONS)[0], Null))
  }

  function IdOf(v: Json): Json { Get(v, "id", Null) }

  /** Ids of earlier elements differ from this one's. */
  predicate FreshId(list: seq<Json>, i: nat)
    requires i < |list|
  {
    forall j :: 0 <= j < i ==> IdOf(list[j]) != IdOf(list[i])
  }

  predicate GoodChoice(v: Json) {
    v.Obj? && Filled(IdOf(v)) && Get(v, "actions", NO_ITEMS).Arr?
    && forall i :: 0 <= i < |Get(v, "actions", NO_ITEMS).items| ==> GoodAction(Get(v, "actions", NO_ITEMS).items[i])
  }

  predicate GoodChoices(choices: seq<Json>) {
    forall i :: 0 <= i < |choices| ==> GoodChoice(choices[i]) && FreshId(choices, i)
  }

  predicate GoodBeat(v: Json) {
    && v.Obj? && Filled(IdOf(v)) && Get(v, "entry", Null).Bool? && Get(v, "priority", Null).Int?
    && Get(v, "conditions", NO_ITEMS).Arr?
    && (forall i :: 0 <= i < |Get(v, "conditions", NO_ITEMS).items| ==>
      GoodCondition(Get(v, "conditions", NO_ITEMS).items[i]))
    && Get(v, "choices", NO_ITEMS).Arr? && GoodChoices(Get(v, "choices", NO_ITEMS).items)
  }

  predicate GoodBeats(beats: seq<Json>) {
    forall i :: 0 <= i < |beats| ==> GoodBeat(beats[i]) && FreshId(beats, i)
  }

  predicate NamesBeat(beats: seq<Json>, id: Json) {
    exists i :: 0 <= i < |beats| && IdOf(beats[i]) == id
  }

  /** The choice's `next` is absent, null or the id of a beat. */
  predicate GoodNext(beats: seq<Json>, choice: Json) {
    var next := Get(choice, "next", Null);
    next.Null? || (next.Str? && NamesBeat(beats, next))
  }

  predicate GoodNexts(beats: seq<Json>, choices: seq<Json>) {
    forall i :: 0 <= i < |choices| ==> GoodNext(beats, choices[i])
  }

  predicate GoodPool(beat: Json) {
    var pool := Get(beat, "pool", Null);
    pool.Null? || (pool.Str? && pool.s in POOLS)
  }

  predicate GoodHeader(v: Json) {
    && v.Obj?
    && Get(v, "schema_version", Null).Int? && Get(v, "schema_version", Null).n >= 1
    && Filled(IdOf(v)) && StartsWith(IdOf(v), "npc.")
    && (Get(v, "design", Null).Null? || Get(v, "design", Null).Obj?)
    && (Get(v, "interaction", Null).Null? || Get(v, "interaction", Null).Obj?)
  }

  /** The beats the selection works on. */
  function BeatsOf(v: Json): Json {
    var interaction := Get(v, "interaction", NO_FIELDS);
    if interaction.Obj? then Get(interaction, "beats", NO_ITEMS) else NO_ITEMS
  }

  predicate HebrewText(s: string) { exists i :: 0 <= i < |s| && '\U{590}' <= s[i] <= '\U{5FF}' }

  /** `contains_hebrew`, over every text and key of the document. */
  predicate ContainsHebrew(v: Json)
    decreases v
  {
    match v
    case Str(s) => HebrewText(s)
    case Arr(items) => exists i :: 0 <= i < |items| && ContainsHebrew(items[i])
    case Obj(fields) => exists k :: k in fields && (HebrewText(k) || ContainsHebrew(fields[k]))
    case _ => false
  }

  predicate ValidDocument(v: Json) {
    && GoodHeader(v) && BeatsOf(v).Arr? && !ContainsHebrew(v)
    && var beats := BeatsOf(v).items;
       && GoodBeats(beats)
       && (forall i :: 0 <= i < |beats| ==>
             GoodNexts(beats, Get(beats[i], "choices", NO_ITEMS).items) && GoodPool(beats[i]))
  }

  // The validator, with its loops. Each problem stands for one message.

  datatype Problem =
    | NotObject | NotExactlyOne | BadEquals | BadReference(kind: string) | BadData(kind: string)
    | BadId | DuplicateId(id: string) | BadEntry | BadPriority | NotArray(field: string)
    | MissingBeat | BadPool | BadSchema | BadDesign | BadInteraction | Hebrew

  method ValidateCondition(v: Json) returns (errors: seq<Problem>)
    ensures errors == [] <==> GoodCondition(v)
  {
    if !v.Obj? { return [NotObject]; }
    var supported := Supported(v, CONDITIONS);
    if |supported| != 1 { return [NotExactlyOne]; }
    errors := [];
    if !Get(v, "equals", Null).Bool? { errors := errors + [BadEquals]; }
    var kind := supported[0];
    var reference := Get(v, kind, Null);
    if kind == "fact" {
      if !Filled(reference) || EncodesMet(reference) { errors := errors + [BadReference(kind)]; }
    } else if kind == "npc_met" {
      if !StartsWith(reference, "npc.") { errors := errors + [BadReference(kind)]; }
    } else if kind == "dialogue_heard" {
      if !reference.Obj? {
        errors := errors + [BadReference(kind)];
      } else {
        if !StartsWith(Get(reference, "npc", Null), "npc.") { errors := errors + [BadReference(kind)]; }
        if !Filled(Get(reference, "beat", Null)) { errors := errors + [BadReference(kind)]; }
      }
    } else {
      if !StartsWith(reference, "item.") { errors := errors + [BadReference(kind)]; }
    }
  }

  method ValidateAction(v: Json) returns (errors: seq<Problem>)
    ensures errors == [] <==> GoodAction(v)
  {
    if !v.Obj? { return [NotObject]; }
    var supported := Supported(v, ACTIONS);
    if |supported| != 1 { return [NotExactlyOne]; }
    var kind := supported[0];
    var data := Get(v, kind, Null);
    errors := [];
    if kind == "mark_npc_met" {
      if !StartsWith(data, "npc.") { errors := errors + [BadData(kind)]; }
      return;
    }
    if !data.Obj? { return [BadData(kind)]; }
    if kind == "set_fact" {
      var fact := Get(data, "fact", Null);
      if !Filled(fact) || EncodesMet(fact) { errors := errors + [BadData(kind)]; }
      if !Get(data, "value", Null).Bool? { errors := errors + [BadData(kind)]; }
    } else if kind == "grant_ability" {
      if !Filled(Get(data, "ability", Null)) { errors := errors + [BadData(kind)]; }
    } else {
      var quantity := Get(data, "quantity", Null);
      if !StartsWith(Get(data, "item", Null), "item.") { errors := errors + [BadData(kind)]; }
      if !quantity.Int? || quantity.n < 1 { errors := errors + [BadData(kind)]; }
    }
  }

  method ValidateConditions(conditions: seq<Json>) returns (errors: seq<Problem>)
    ensures errors == [] <==> forall i :: 0 <= i < |conditions| ==> GoodCondition(conditions[i])
  {
    errors := [];
    for i := 0 to |conditions|
      invariant errors == [] <==> forall j :: 0 <= j < i ==> GoodCondition(conditions[j])
    {
      var more := ValidateCondition(conditions[i]);
      errors := errors + more;
    }
  }

  method ValidateActions(actions: seq<Json>) returns (errors: seq<Problem>)
    ensures errors == [] <==> forall i :: 0 <= i < |actions| ==> GoodAction(actions[i])
  {
    errors := [];
    for i := 0 to |actions|
      invariant errors == [] <==> forall j :: 0 <= j < i ==> GoodAction(actions[j])
    {
      var more := ValidateAction(actions[i]);
      errors := errors + more;
    }
  }

  /** The id check shared by beats and choices: a filled string not seen before, which is then remembered. */
  method CheckId(v: Json, seen: set<string>) returns (errors: seq<Problem>, now: set<string>)
    ensures errors == [] <==> Filled(IdOf(v)) && IdOf(v).s !in seen
    ensures now == if errors == [] then seen + {IdOf(v).s} else seen
  {
    errors, now := [], seen;
    var id := IdOf(v);
    if !Filled(id) {
      errors := [BadId];
    } else if id.s in seen {
      errors := [DuplicateId(id.s)];
    } else {
      now := seen + {id.s};
    }
  }

  /** The ids remembered after the first `n` elements, all of them good so far. */
  ghost predicate Remembers(seen: set<string>, list: seq<Json>, n: nat)
    requires n <= |list|
  {
    forall s :: s in seen <==> exists j :: 0 <= j < n && IdOf(list[j]) == Str(s)
  }

  lemma RemembersNext(seen: set<string>, list: seq<Json>, n: nat)
    requires n < |list| && Remembers(seen, list, n) && Filled(IdOf(list[n]))
    ensures Remembers(seen + {IdOf(list[n]).s}, list, n + 1)
    ensures IdOf(list[n]).s !in seen <==> FreshId(list, n)
  {
    var id := IdOf(list[n]).s;
    forall s ensures s in seen + {id} <==> exists j :: 0 <= j < n + 1 && IdOf(list[j]) == Str(s) {
      if s in seen {
        var j :| 0 <= j < n && IdOf(list[j]) == Str(s);
      }
      if s == id { assert IdOf(list[n]) == Str(s); }
      if j :| 0 <= j < n + 1 && IdOf(list[j]) == Str(s) {
        if j < n { assert s in seen; }
      }
    }
  }

  method ValidateChoices(choices: seq<Json>) returns (errors: seq<Problem>)
    ensures errors == [] <==> GoodChoices(choices)
  {
    errors := [];
    var choiceIds: set<string> := {};
    for i := 0 to |choices|
      invariant errors == [] <==> forall j :: 0 <= j < i ==> GoodChoice(choices[j]) && FreshId(choices, j)
      invariant errors == [] ==> Remembers(choiceIds, choices, i)
    {
      var choice := choices[i];
      if !choice.Obj? {
        errors := errors + [NotObject];
      } else {
        if errors == [] && Filled(IdOf(choice)) { RemembersNext(choiceIds, choices, i); }
        var found, now := CheckId(choice, choiceIds);
        errors, choiceIds := errors + found, now;
        var actions := Get(choice, "actions", NO_ITEMS);
        if !actions.Arr? {
          errors := errors + [NotArray("actions")];
        } else {
          var more := ValidateActions(actions.items);
          errors := errors + more;
        }
      }
    }
  }

  /** The body of the beat loop, without the id. */
  method ValidateBeatFields(beat: Json) returns (errors: seq<Problem>)
    requires beat.Obj?
    ensures errors == [] && Filled(IdOf(beat)) <==> GoodBeat(beat)
  {
    errors := [];
    if !Get(beat, "entry", Null).Bool? { errors := errors + [BadEntry]; }
    if !Get(beat, "priority", Null).Int? { errors := errors + [BadPriority]; }
    var conditions := Get(beat, "conditions", NO_ITEMS);
    if !conditions.Arr? {
      errors := errors + [NotArray("conditions")];
    } else {
      var more := ValidateConditions(conditions.items);
      errors := errors + more;
    }
    var choices := Get(beat, "choices", NO_ITEMS);
    if !choices.Arr? {
      errors := errors + [NotArray("choices")];
    } else {
      var more := ValidateChoices(choices.items);
      errors := errors + more;
    }
  }

  method ValidateBeats(beats: seq<Json>) returns (errors: seq<Problem>, beatIds: set<string>)
    ensures errors == [] <==> GoodBeats(beats)
    ensures errors == [] ==> Remembers(beatIds, beats, |beats|)
  {
    errors, beatIds := [], {};
    for i := 0 to |beats|
      invariant errors == [] <==> forall j :: 0 <= j < i ==> GoodBeat(beats[j]) && FreshId(beats, j)
      invariant errors == [] ==> Remembers(beatIds, beats, i)
    {
      var beat := beats[i];
      if !beat.Obj? {
        errors := errors + [NotObject];
      } else {
        if errors == [] && Filled(IdOf(beat)) { RemembersNext(beatIds, beats, i); }
        var found, now := CheckId(beat, beatIds);
        var more := ValidateBeatFields(beat);
        errors, beatIds := errors + found + more, now;
      }
    }
  }

  predicate NextKnown(choice: Json, beatIds: set<string>) {
    var next := Get(choice, "next", Null);
    choice.Obj? ==> next.Null? || (next.Str? && next.s in beatIds)
  }

  /** What the second loop asks of a beat; what is not an object or no list is passed over. */
  predicate NextsKnown(beat: Json, beatIds: set<string>) {
    var choices := Get(beat, "choices", NO_ITEMS);
    beat.Obj? && choices.Arr? ==> forall k :: 0 <= k < |choices.items| ==> NextKnown(choices.items[k], beatIds)
  }

  /** The second loop of the validator: every `next` names a beat. */
  method ValidateNexts(beats: seq<Json>, beatIds: set<string>) returns (errors: seq<Problem>)
    ensures errors == [] <==> forall i :: 0 <= i < |beats| ==> NextsKnown(beats[i], beatIds)
  {
    errors := [];
    for i := 0 to |beats|
      invariant errors == [] <==> forall j :: 0 <= j < i ==> NextsKnown(beats[j], beatIds)
    {
      var choices := Get(beats[i], "choices", NO_ITEMS);
      if beats[i].Obj? && choices.Arr? {
        ghost var before := errors;
        for k := 0 to |choices.items|
          invariant errors == [] <==> before == [] && forall l :: 0 <= l < k ==> NextKnown(choices.items[l], beatIds)
        {
          var next := Get(choices.items[k], "next", Null);
          if choices.items[k].Obj? && !next.Null? && (!next.Str? || next.s !in beatIds) {
            errors := errors + [MissingBeat];
          }
        }
      }
    }
  }

  lemma KnownNextsAreGood(beats: seq<Json>, beatIds: set<string>, i: nat)
    requires GoodBeats(beats) && Remembers(beatIds, beats, |beats|) && i < |beats|
    ensures NextsKnown(beats[i], beatIds) <==> GoodNexts(beats, Get(beats[i], "choices", NO_ITEMS).items)
  {
    var choices := Get(beats[i], "choices", NO_ITEMS).items;
    assert GoodBeat(beats[i]);
    forall k | 0 <= k < |choices| ensures NextKnown(choices[k], beatIds) <==> GoodNext(beats, choices[k]) {
      assert GoodChoice(choices[k]);
    }
  }

  /** The pool loop of `validate_npc_document_n7`. */
  method ValidatePools(beats: seq<Json>) returns (errors: seq<Problem>)
    ensures errors == [] <==> forall i :: 0 <= i < |beats| ==> !beats[i].Obj? || GoodPool(beats[i])
  {
    errors := [];
    for i := 0 to |beats|
      invariant errors == [] <==> forall j :: 0 <= j < i ==> !beats[j].Obj? || GoodPool(beats[j])
    {
      if beats[i].Obj? {
        var pool := Get(beats[i], "pool", Null);
        if !pool.Null? && (!pool.Str? || pool.s !in POOLS) { errors := errors + [BadPool]; }
      }
    }
  }

  /** The two loops over the beats, and the pool loop. */
  method ValidateInteraction(beats: seq<Json>) returns (errors: seq<Problem>)
    ensures errors == [] <==>
      && GoodBeats(beats)
      && forall i :: 0 <= i < |beats| ==>
        GoodNexts(beats, Get(beats[i], "choices", NO_ITEMS).items) && GoodPool(beats[i])
  {
    var found, beatIds := ValidateBeats(beats);
    var more := ValidateNexts(beats, beatIds);
    var pools := ValidatePools(beats);
    errors := found + more + pools;
    if found == [] {
      forall i | 0 <= i < |beats|
        ensures NextsKnown(beats[i], beatIds) <==> GoodNexts(beats, Get(beats[i], "choices", NO_ITEMS).items)
        ensures beats[i].Obj?
      {
        KnownNextsAreGood(beats, beatIds, i);
      }
    }
  }

  /** `validate_npc_document_n7`: no problem is reported exactly for the valid documents. */
  method ValidateNpcDocument(v: Json) returns (errors: seq<Problem>)
    ensures errors == [] <==> ValidDocument(v)
  {
    if !v.Obj? { return [NotObject]; }
    errors := [];
    var schema := Get(v, "schema_version", Null);
    if !schema.Int? || schema.n < 1 { errors := errors + [BadSchema]; }
    var id := IdOf(v);
    if !Filled(id) {
      errors := errors + [BadId];
    } else if !StartsWith(id, "npc.") {
      errors := errors + [BadId];
    }
    var design := Get(v, "design", Null);
    if !design.Null? && !design.Obj? { errors := errors + [BadDesign]; }
    var interaction := Get(v, "interaction", Null);
    if !interaction.Null? && !interaction.Obj? { errors := errors + [BadInteraction]; }
    assert errors == [] <==> GoodHeader(v);
    if interaction.Obj? {
      assert BeatsOf(v) == Get(interaction, "beats", NO_ITEMS);
      var beats := Get(interaction, "beats", NO_ITEMS);
      if !beats.Arr? {
        errors := errors + [NotArray("beats")];
      } else {
        var more := ValidateInteraction(beats.items);
        errors := errors + more;
      }
    } else {
      assert GoodHeader(v) ==> BeatsOf(v) == NO_ITEMS;
    }
    if ContainsHebrew(v) { errors := errors + [Hebrew]; }
  }
}
