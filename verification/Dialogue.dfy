/**
 The client dialogue projection of `apps/client/src/dialogue_runtime.rs`, driven together with the
 interaction state of `apps/client/src/ui_runtime.rs` as `apps/client/src/app.rs` drives them.
 */
module Dialogue {
  import opened Basics

  /** Times in nanoseconds. */
  const SECOND: nat := 1_000_000_000
  const MAX_DURATION: nat := 0x1_0000_0000_0000_0000 * SECOND - 1
  const REVISIONS: nat := 0x1_0000_0000_0000_0000

  datatype Line = Line(session: nat, target: nat, npc: nat, beat: nat, index: nat)

  datatype Beat = Beat(lines: nat, choices: seq<string>)

  /** Authored presentations by NPC. */
  type Registry = map<nat, seq<Beat>>

  datatype Accepted = Accepted(session: nat, text: string, elapsed: nat)

  datatype Projection = Projection(
    active: Option<Line>, pending: Option<Line>, selected: nat, accepted: Option<Accepted>, revision: nat)

  const BLANK := Projection(None, None, 0, None, 0)

  datatype Ui = NoInteraction | Opening(target: nat) | Active(session: nat, target: nat) | Closing(session: nat,
    target: nat) | Over

  datatype Interact = Opened(session: nat, target: nat) | Updated(session: nat, target: nat) | Rejected | Closed

  datatype Verdict = Fine | Mismatch | UnknownBeat | UnknownLine

  function BeatOf(reg: Registry, npc: nat, beat: nat): Option<Beat> {
    if npc in reg && beat < |reg[npc]| then Some(reg[npc][beat]) else None
  }

  function ChoiceCount(reg: Registry, line: Line): nat {
    var beat := BeatOf(reg, line.npc, line.beat);
    if beat.Some? then |beat.value.choices| else 0
  }

  /** `choices`: none while an accepted choice is shown, none for a beat without choices. */
  function Choices(p: Projection, reg: Registry): Option<seq<string>> {
    if p.accepted.Some? || p.active.None? then None
    else
      var beat := BeatOf(reg, p.active.value.npc, p.active.value.beat);
      if beat.None? || beat.value.choices == [] then None else Some(beat.value.choices)
  }

  /** `activate_line`: the revision moves when the line differs from the one shown. */
  function Activate(p: Projection, line: Line): Projection {
    p.(active := Some(line), revision := if p.active != Some(line) then (p.revision + 1) % REVISIONS else p.revision)
  }

  function ApplyLine(p: Projection, line: Line, ui: Ui, reg: Registry): (Projection, Verdict) {
    if ui != Active(line.session, line.target) then (p, Mismatch)
    else
      var beat := BeatOf(reg, line.npc, line.beat);
      if beat.None? then (p.(active := None), UnknownBeat)
      else if line.index >= beat.value.lines then (p.(active := None), UnknownLine)
      else if p.accepted.Some? && p.accepted.value.session == line.session then (p.(pending := Some(line)), Fine)
      else (Activate(p, line).(pending := None, selected := 0), Fine)
  }

  function ApplyChoiceAccepted(p: Projection, session: nat, beat: nat, choice: nat, reg: Registry): (Projection,
      Verdict) {
    if p.active.None? || p.active.value.session != session || p.active.value.beat != beat then (p, Mismatch)
    else
      var authored := BeatOf(reg, p.active.value.npc, p.active.value.beat);
      if authored.None? || choice >= |authored.value.choices| then (p, UnknownBeat)
      else (p.(selected := choice, accepted := Some(Accepted(session, authored.value.choices[choice], 0))), Fine)
  }

  function ApplyInteract(p: Projection, event: Interact): Projection {
    match event
    case Rejected => p.(active := None, pending := None, selected := 0)
    case Closed => p.(active := None, pending := None, selected := 0)
    case Opened(session, target) =>
      if p.active.Some? && (p.active.value.session != session || p.active.value.target != target) then
        p.(active := None)
      else p
    case Updated(session, target) =>
      if p.active.Some? && (p.active.value.session != session || p.active.value.target != target) then
        p.(active := None)
      else p
  }

  function Clear(p: Projection): Projection { p.(active := None, pending := None, selected := 0, accepted := None) }

  function ClearIfMissing(p: Projection, present: set<nat>): Projection {
    if p.active.Some? && p.active.value.target !in present then p.(active := None, pending := None) else p
  }

  function SelectChoice(p: Projection, index: nat, reg: Registry): Projection {
    var choices := Choices(p, reg);
    if choices.None? || index >= |choices.value| then p else p.(selected := index)
  }

  function SelectNext(p: Projection, direction: int, reg: Registry): Projection {
    var choices := Choices(p, reg);
    if choices.None? then p
    else
      var n := |choices.value|;
      p.(selected := if direction < 0 then (p.selected + n - 1) % n else (p.selected + 1) % n)
  }

  function MinNat(a: nat, b: nat): nat { if a < b then a else b }

  function Tick(p: Projection, elapsed: nat): Projection {
    if p.accepted.None? then p
    else
      var a := p.accepted.value;
      var total := MinNat(a.elapsed + elapsed, MAX_DURATION);
      if total < SECOND then p.(accepted := Some(a.(elapsed := total)))
      else
        var next := p.(accepted := None, pending := None);
        if p.pending.Some? then Activate(next, p.pending.value).(selected := 0) else next
  }

  /** `choice_request` */
  function ChoiceRequest(p: Projection, reg: Registry): Option<(nat, nat, nat)> {
    var choices := Choices(p, reg);
    if choices.None? || p.selected >= |choices.value| then None
    else Some((p.active.value.session, p.active.value.beat, p.selected))
  }

  function UiApply(event: Interact): Ui {
    match event
    case Opened(session, target) => Active(session, target)
    case Updated(session, target) => Active(session, target)
    case _ => Over
  }

  class DialogueRuntime {
    var active: Option<Line>
    var pending: Option<Line>
    var selectedChoice: nat
    var accepted: Option<Accepted>
    var presentationRevision: nat

    function Value(): Projection
      reads this
    {
      Projection(active, pending, selectedChoice, accepted, presentationRevision)
    }

    constructor ()
      ensures Value() == BLANK
    {
      active, pending, selectedChoice, accepted, presentationRevision := None, None, 0, None, 0;
    }

    method ActivateLine(line: Line)
      modifies this
      ensures Value() == Activate(old(Value()), line)
    {
      if active != Some(line) { presentationRevision := (presentationRevision + 1) % REVISIONS; }
      active := Some(line);
    }

    method OnLine(line: Line, ui: Ui, reg: Registry) returns (verdict: Verdict)
      modifies this
      ensures (Value(), verdict) == ApplyLine(old(Value()), line, ui, reg)
    {
      if ui != Active(line.session, line.target) { return Mismatch; }
      var beat := BeatOf(reg, line.npc, line.beat);
      if beat.None? {
        active := None;
        return UnknownBeat;
      }
      if line.index >= beat.value.lines {
        active := None;
        return UnknownLine;
      }
      if accepted.Some? && accepted.value.session == line.session {
        pending := Some(line);
      } else {
        ActivateLine(line);
        pending := None;
        selectedChoice := 0;
      }
      return Fine;
    }

    method OnChoiceAccepted(session: nat, beat: nat, choice: nat, reg: Registry) returns (verdict: Verdict)
      modifies this
      ensures (Value(), verdict) == ApplyChoiceAccepted(old(Value()), session, beat, choice, reg)
    {
      if active.None? || active.value.session != session || active.value.beat != beat { return Mismatch; }
      var authored := BeatOf(reg, active.value.npc, active.value.beat);
      if authored.None? || choice >= |authored.value.choices| { return UnknownBeat; }
      selectedChoice := choice;
      accepted := Some(Accepted(session, authored.value.choices[choice], 0));
      return Fine;
    }

    method OnInteract(event: Interact)
      modifies this
      ensures Value() == ApplyInteract(old(Value()), event)
    {
      if event.Opened? || event.Updated? {
        if active.Some? && (active.value.session != event.session || active.value.target != event.target) {
          active := None;
        }
      } else {
        active, pending, selectedChoice := None, None, 0;
      }
    }

    method OnTick(elapsed: nat)
      modifies this
      ensures Value() == Tick(old(Value()), elapsed)
    {
      if accepted.None? { return; }
      var total := MinNat(accepted.value.elapsed + elapsed, MAX_DURATION);
      accepted := Some(accepted.value.(elapsed := total));
      if total < SECOND { return; }
      accepted := None;
      if pending.Some? {
        var next := pending.value;
        pending := None;
        ActivateLine(next);
        selectedChoice := 0;
      }
    }

    method Next(reg: Registry, direction: int) returns (moved: bool)
      modifies this
      ensures Value() == SelectNext(old(Value()), direction, reg) && moved == Choices(old(Value()), reg).Some?
    {
      var choices := Choices(Value(), reg);
      if choices.None? { return false; }
      var n := |choices.value|;
      selectedChoice := if direction < 0 then (selectedChoice + n - 1) % n else (selectedChoice + 1) % n;
      return true;
    }
  }

  // Runs of the client: the projection and the interaction state together.

  datatype Client = Client(p: Projection, ui: Ui)

  const START := Client(BLANK, NoInteraction)

  datatype Event =
    | Interacted(event: Interact)
    | LineCame(line: Line)
    | ChoiceTaken(session: nat, beat: nat, choice: nat)
    | Ticked(elapsed: nat)
    | ScreenChanged
    | WorldSeen(present: set<nat>)
    | Picked(index: nat)
    | Moved(direction: int)
    | OpenBegun(target: nat)
    | CloseBegun(session: nat, target: nat)

  function Take(c: Client, e: Event, reg: Registry): Client {
    match e
    case Interacted(event) => Client(ApplyInteract(c.p, event), UiApply(event))
    case LineCame(line) => c.(p := ApplyLine(c.p, line, c.ui, reg).0)
    case ChoiceTaken(session, beat, choice) => c.(p := ApplyChoiceAccepted(c.p, session, beat, choice, reg).0)
    case Ticked(elapsed) => c.(p := Tick(c.p, elapsed))
    case ScreenChanged => Client(Clear(c.p), NoInteraction)
    case WorldSeen(present) => c.(p := ClearIfMissing(c.p, present))
    case Picked(index) => c.(p := SelectChoice(c.p, index, reg))
    case Moved(direction) => c.(p := SelectNext(c.p, direction, reg))
    case OpenBegun(target) => c.(ui := Opening(target))
    case CloseBegun(session, target) => c.(ui := Closing(session, target))
  }

  function TakeAll(c: Client, events: seq<Event>, reg: Registry): Client
    decreases |events|
  {
    if events == [] then c else TakeAll(Take(c, events[0], reg), events[1..], reg)
  }

  /** A pending line waits for an accepted choice of its session, and what is shown meanwhile is of that session too. */
  predicate PendingOk(p: Projection) {
    p.pending.Some? ==>
      && p.accepted.Some? && p.accepted.value.session == p.pending.value.session
      && (p.active.Some? ==> p.active.value.session == p.pending.value.session)
  }

  predicate SelectionOk(p: Projection, reg: Registry) {
    p.active.Some? ==> p.selected == 0 || p.selected < ChoiceCount(reg, p.active.value)
  }

  /** While the accepted choice's session is the open one, only its lines are shown. */
  predicate SessionOk(c: Client) {
    c.p.accepted.Some? && c.p.active.Some? && c.ui.Active? && c.ui.session == c.p.accepted.value.session ==>
      c.p.active.value.session == c.p.accepted.value.session
  }

  predicate Inv(c: Client, reg: Registry) {
    PendingOk(c.p) && SelectionOk(c.p, reg) && SessionOk(c)
      && (c.p.accepted.Some? ==> c.p.accepted.value.elapsed < SECOND)
  }

  lemma TakeKeeps(c: Client, e: Event, reg: Registry)
    requires Inv(c, reg)
    ensures Inv(Take(c, e, reg), reg)
  {
  }

  /** In every reachable state the pending line, the active line and the selected index fit together. */
  lemma {:induction false} Reachable(c: Client, events: seq<Event>, reg: Registry)
    requires Inv(c, reg)
    ensures Inv(TakeAll(c, events, reg), reg)
    decreases |events|
  {
    if events != [] {
      TakeKeeps(c, events[0], reg);
      Reachable(Take(c, events[0], reg), events[1..], reg);
    }
  }

  /** Whenever choices are offered, confirming sends one of them: the request exists and its index is valid. */
  lemma OfferedChoiceIsSent(events: seq<Event>, reg: Registry)
    ensures var p := TakeAll(START, events, reg).p;
      Choices(p, reg).Some? ==>
        ChoiceRequest(p, reg) == Some((p.active.value.session, p.active.value.beat, p.selected))
          && p.selected < |Choices(p, reg).value|
  {
    Reachable(START, events, reg);
  }

  /** The revision moves by one exactly when a line other than the shown one becomes active. */
  lemma RevisionCountsActivations(c: Client, e: Event, reg: Registry)
    requires c.p.revision < REVISIONS
    ensures var q := Take(c, e, reg).p;
      && q.revision ==
        (if q.active.Some? && q.active != c.p.active then (c.p.revision + 1) % REVISIONS else c.p.revision)
      && q.revision < REVISIONS
      && (q.revision != c.p.revision <==> q.active.Some? && q.active != c.p.active)
  {
  }

  // The delayed continuation.

  /** Events that close, clear or supersede the pending line, or restart its wait. */
  predicate Disturbs(c: Client, e: Event, reg: Registry) {
    match e
    case Interacted(event) => event.Rejected? || event.Closed?
    case ScreenChanged => true
    case WorldSeen(present) => c.p.active.Some? && c.p.active.value.target !in present
    case LineCame(line) => ApplyLine(c.p, line, c.ui, reg).1 == Fine
    case ChoiceTaken(session, beat, choice) => ApplyChoiceAccepted(c.p, session, beat, choice, reg).1 == Fine
    case _ => false
  }

  predicate Undisturbed(c: Client, events: seq<Event>, reg: Registry)
    decreases |events|
  {
    events == [] || (!Disturbs(c, events[0], reg) && Undisturbed(Take(c, events[0], reg), events[1..], reg))
  }

  function TimeOf(e: Event): nat { if e.Ticked? then e.elapsed else 0 }

  function Time(events: seq<Event>): nat {
    if events == [] then 0 else TimeOf(events[0]) + Time(events[1..])
  }

  predicate Waiting(c: Client, line: Line, elapsed: nat) {
    c.p.pending == Some(line) && c.p.accepted.Some? && c.p.accepted.value.elapsed == elapsed
  }

  lemma WaitStep(c: Client, e: Event, reg: Registry, line: Line, elapsed: nat)
    requires Waiting(c, line, elapsed) && elapsed < SECOND && !Disturbs(c, e, reg)
    ensures elapsed + TimeOf(e) < SECOND ==> Waiting(Take(c, e, reg), line, elapsed + TimeOf(e))
    ensures elapsed + TimeOf(e) >= SECOND ==>
      var p := Take(c, e, reg).p; p.active == Some(line) && p.pending.None? && p.accepted.None? && p.selected == 0
  {
  }

  /**
   The continuation is delayed, not lost: undisturbed, the pending line waits while less than a second has
   passed, and is the active line right after the tick with which the second is reached.
   */
  lemma {:induction false} ContinuesAfterOneSecond(c: Client, events: seq<Event>, reg: Registry, line: Line,
      elapsed: nat)
    requires Waiting(c, line, elapsed) && elapsed < SECOND && Undisturbed(c, events, reg)
    ensures elapsed + Time(events) < SECOND ==> Waiting(TakeAll(c, events, reg), line, elapsed + Time(events))
    ensures elapsed + Time(events) >= SECOND ==> exists n: nat :: ActivatedBy(c, events, reg, line, elapsed, n)
    decreases |events|
  {
    if events != [] {
      var next := Take(c, events[0], reg);
      WaitStep(c, events[0], reg, line, elapsed);
      assert events[..1] == [events[0]] && events[..1][1..] == [] && events[..0] == [];
      if elapsed + TimeOf(events[0]) < SECOND {
        ContinuesAfterOneSecond(next, events[1..], reg, line, elapsed + TimeOf(events[0]));
        if elapsed + Time(events) >= SECOND {
          var n: nat :| ActivatedBy(next, events[1..], reg, line, elapsed + TimeOf(events[0]), n);
          assert events[..n + 1][1..] == events[1..][..n] && events[..n + 2][1..] == events[1..][..n + 1];
          assert ActivatedBy(c, events, reg, line, elapsed, n + 1);
        }
      } else {
        assert Time(events[..0]) == 0;
        assert TakeAll(c, events[..1], reg) == TakeAll(next, [], reg) == next;
        assert Time(events[..1]) == TimeOf(events[0]);
        assert ActivatedBy(c, events, reg, line, elapsed, 0);
      }
    }
  }

  /** The `n`-th event is the one with which the second is reached, and it makes the line active. */
  ghost predicate ActivatedBy(c: Client, events: seq<Event>, reg: Registry, line: Line, elapsed: nat, n: nat) {
    && n < |events|
    && elapsed + Time(events[..n]) < SECOND <= elapsed + Time(events[..n + 1])
    && TakeAll(c, events[..n + 1], reg).p.active == Some(line)
  }

  // What the coupling is for, and what it does not give.

  /** Lines delivered against an interaction state that never told the projection can mix two sessions. */
  lemma UncoupledSessionsMix()
    ensures
      var reg := map[1 := [Beat(1, ["yes"])]];
      var s, t := Line(7, 42, 1, 0, 0), Line(8, 42, 1, 0, 0);
      var shown := ApplyLine(BLANK, s, Active(7, 42), reg).0;
      var chosen := ApplyChoiceAccepted(shown, 7, 0, 0, reg).0;
      var other := ApplyLine(chosen, t, Active(8, 42), reg).0;
      !PendingOk(ApplyLine(other, s, Active(7, 42), reg).0)
  {
    var reg := map[1 := [Beat(1, ["yes"])]];
    assert BeatOf(reg, 1, 0) == Some(Beat(1, ["yes"]));
  }

  /** The line on show belongs to the open interaction. */
  predicate ShowsOpenSession(c: Client) {
    c.p.active.Some? && c.ui.Active? ==> c.p.active.value.session == c.ui.session
  }

  /**
   That is kept by every step except one: a tick that brings up a pending line of an interaction that
   another one has replaced without being closed first.
   */
  lemma ShowsOpenSessionIff(c: Client, e: Event, reg: Registry)
    requires Inv(c, reg) && ShowsOpenSession(c)
    ensures ShowsOpenSession(Take(c, e, reg)) <==>
      !(e.Ticked? && c.p.accepted.Some? && c.p.accepted.value.elapsed + e.elapsed >= SECOND
        && c.p.pending.Some? && c.ui.Active? && c.p.pending.value.session != c.ui.session)
  {
  }

  lemma TakeNext(c: Client, e: Event, rest: seq<Event>, reg: Registry)
    ensures TakeAll(c, [e] + rest, reg) == TakeAll(Take(c, e, reg), rest, reg)
  {
    assert ([e] + rest)[0] == e && ([e] + rest)[1..] == rest;
  }

  const STALE := Line(7, 42, 1, 0, 0)

  const STALE_RUN :=
    [Interacted(Opened(7, 42)), LineCame(STALE), ChoiceTaken(7, 0, 0), LineCame(STALE), Interacted(Opened(8, 43)),
     Ticked(SECOND)]

  /** The first half of the run: the choice is accepted, and the next line is pending. */
  lemma StaleIsPending(reg: Registry) returns (c: Client)
    requires reg == map[1 := [Beat(1, ["yes"])]]
    ensures c ==
      Take(Take(Take(Take(START, STALE_RUN[0], reg), STALE_RUN[1], reg), STALE_RUN[2], reg), STALE_RUN[3], reg)
    ensures c.p.pending == Some(STALE) && c.p.accepted.Some? && c.ui == Active(7, 42)
  {
    assert BeatOf(reg, 1, 0) == Some(Beat(1, ["yes"]));
    var c1 := Take(START, STALE_RUN[0], reg);
    var c2 := Take(c1, STALE_RUN[1], reg);
    var c3 := Take(c2, STALE_RUN[2], reg);
    assert c3.p.accepted == Some(Accepted(7, "yes", 0));
    c := Take(c3, STALE_RUN[3], reg);
  }

  /** Such a run exists. */
  lemma StaleLineComesUp()
    ensures !ShowsOpenSession(TakeAll(START, STALE_RUN, map[1 := [Beat(1, ["yes"])]]))
  {
    var reg := map[1 := [Beat(1, ["yes"])]];
    var c4 := StaleIsPending(reg);
    var c5 := Take(c4, STALE_RUN[4], reg);
    assert c5.p.pending == Some(STALE) && c5.p.accepted == c4.p.accepted && c5.ui == Active(8, 43);
    var c6 := Take(c5, STALE_RUN[5], reg);
    assert c6.p.active == Some(STALE);
    StaleRunUnfolds(reg);
  }

  lemma StaleRunUnfolds(reg: Registry)
    ensures TakeAll(START, STALE_RUN, reg) ==
      Take(Take(Take(Take(Take(Take(START, STALE_RUN[0], reg), STALE_RUN[1], reg), STALE_RUN[2], reg), STALE_RUN[3],
        reg), STALE_RUN[4], reg), STALE_RUN[5], reg)
  {
    var run := STALE_RUN;
    assert run == [run[0]] + ([run[1]] + ([run[2]] + ([run[3]] + ([run[4]] + ([run[5]] + [])))));
    var c1 := Take(START, run[0], reg);
    var c2 := Take(c1, run[1], reg);
    var c3 := Take(c2, run[2], reg);
    var c4 := Take(c3, run[3], reg);
    var c5 := Take(c4, run[4], reg);
    TakeNext(START, run[0], [run[1]] + ([run[2]] + ([run[3]] + ([run[4]] + ([run[5]] + [])))), reg);
    TakeNext(c1, run[1], [run[2]] + ([run[3]] + ([run[4]] + ([run[5]] + []))), reg);
    TakeNext(c2, run[2], [run[3]] + ([run[4]] + ([run[5]] + [])), reg);
    TakeNext(c3, run[3], [run[4]] + ([run[5]] + []), reg);
    TakeNext(c4, run[4], [run[5]] + [], reg);
    TakeNext(c5, run[5], [], reg);
  }
}
