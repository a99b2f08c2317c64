/** The frontend of `apps/client/src/frontend_runtime.rs`: stages, character creation and entering the world. */
module Frontend {
  import opened Basics
  import Scene

  datatype Stage = Intro | Login | ChannelSelect | CharacterSelect

  function StopOf(stage: Stage): Scene.Stop {
    match stage
    case Intro => Scene.Intro
    case Login => Scene.Login
    case ChannelSelect => Scene.Channel
    case CharacterSelect => Scene.Character
  }

  datatype Action =
    | ContinueFromLogin | SelectChannel(slot: nat) | SelectCharacter(slot: nat) | BeginCreate(slot: nat)
    | CancelCreation | CreateCharacter | EnterWorld | Back

  datatype Slot = Empty | Occupied(id: nat, name: string)

  datatype Mode = Browsing | Creating(slot: nat)

  datatype Draft = Draft(slot: nat, name: string)

  datatype Rejection = NotOwned | OccupiedElsewhere | StorageFailure | GameplayEnterFailure | InvalidSelection

  datatype CreationState = Idle | Pending | Rejected

  datatype Session = Disconnected | Connecting | Ready

  datatype Area = Area(
    slots: seq<Slot>, creation: CreationState, selectedId: Option<nat>, mode: Mode, selectedSlot: Option<nat>,
      draft: Option<Draft>)

  datatype Handoff =
    | NoHandoff
    | FadingOut(id: nat, elapsed: real)
    | WaitingForGameplay
    | WaitingForWorldReady
    | FadingIn(since: real)

  datatype Runtime = Runtime(
    handoff: Handoff, enterRejection: Option<Rejection>, session: Session, stage: Stage, target: Option<Stage>,
    introElapsed: real, selectedChannel: Option<nat>, area: Area)

  /** The runtime and the camera it drives. */
  datatype Client = Client(runtime: Runtime, camera: Scene.Camera)

  datatype Character = Character(id: nat, name: string)

  datatype CreateResult = Created(roster: seq<Character>) | NotCreated

  const INTRO_DELAY := 1.25
  const FADE_OUT := 0.30
  const FADE_IN := 0.40
  const EMPTY_AREA := Area([Empty, Empty, Empty], Idle, None, Browsing, None, None)
  const START := Client(Runtime(NoHandoff, None, Disconnected, Intro, None, 0.0, None, EMPTY_AREA), Scene.START)

  // Reads.

  predicate NameChar(c: char) { 'a' <= c <= 'z' || 'A' <= c <= 'Z' || '0' <= c <= '9' }

  /** `CharacterName::parse`: three to twelve ASCII letters and digits. */
  predicate ValidName(name: string) { 3 <= |name| <= 12 && forall i :: 0 <= i < |name| ==> NameChar(name[i]) }

  predicate IsEmptySlot(a: Area, slot: nat) { slot < |a.slots| && a.slots[slot].Empty? }

  /** `can_create` */
  predicate CanCreate(a: Area) {
    && a.creation != Pending
    && a.draft.Some? && a.mode == Creating(a.draft.value.slot)
    && IsEmptySlot(a, a.draft.value.slot) && ValidName(a.draft.value.name)
  }

  /** `create_slot` */
  function CreateSlot(a: Area): Option<nat> {
    if a.selectedSlot.Some? && a.mode == Browsing && IsEmptySlot(a, a.selectedSlot.value) then a.selectedSlot else None
  }

  /** `visible_stage`: no foreground during travel, nor during the intro. */
  function VisibleStage(r: Runtime): Option<Stage> {
    if r.target.None? && r.stage != Intro then Some(r.stage) else None
  }

  /** `enter_character` */
  function EnterCharacter(r: Runtime): Option<nat> {
    if VisibleStage(r) != Some(CharacterSelect) || r.session != Ready || r.area.mode != Browsing
      || r.area.creation == Pending || r.handoff != NoHandoff || r.area.selectedId.None?
    then None
    else if exists i ::
      0 <= i < |r.area.slots| && r.area.slots[i].Occupied? && r.area.slots[i].id == r.area.selectedId.value
    then r.area.selectedId
    else None
  }

  predicate InputLocked(r: Runtime) {
    r.handoff.FadingOut? || r.handoff.WaitingForGameplay? || r.handoff.WaitingForWorldReady?
  }

  /** `enter_alpha` */
  function EnterAlpha(r: Runtime): real {
    match r.handoff
    case NoHandoff => 0.0
    case FadingOut(_, elapsed) => if elapsed / FADE_OUT < 1.0 then elapsed / FADE_OUT else 1.0
    case WaitingForGameplay => 1.0
    case WaitingForWorldReady => 1.0
    case FadingIn(since) => if 1.0 - since / FADE_IN > 0.0 then 1.0 - since / FADE_IN else 0.0
  }

  // Transitions.

  function Cancel(a: Area): Area { a.(mode := Browsing, draft := None, creation := Idle) }

  /** `request`: ignored during a handoff, a pending creation or travel, and for the current stage. */
  function Request(c: Client, stage: Stage): Client {
    var r := c.runtime;
    if r.handoff != NoHandoff || r.area.creation == Pending || r.target.Some? || stage == r.stage then c
    else Client(r.(target := Some(stage), area := Cancel(r.area)), Scene.RequestStop(c.camera, StopOf(stage)))
  }

  function Act(c: Client, action: Action): Client {
    var r := c.runtime;
    if r.handoff != NoHandoff then c
    else if action.EnterWorld? then
      var id := EnterCharacter(r);
      if id.Some? then c.(runtime := r.(enterRejection := None, handoff := FadingOut(id.value, 0.0))) else c
    else if r.area.creation == Pending || r.target.Some? then c
    else if r.stage == CharacterSelect && r.area.mode.Creating? then
      if action.Back? || action.CancelCreation? then c.(runtime := r.(area := Cancel(r.area)))
      else if action.CreateCharacter? && CanCreate(r.area) then c.(runtime := r.(area := r.area.(creation := Pending)))
      else c
    else
      match (r.stage, action)
      case (Login, ContinueFromLogin) => if r.session == Ready then Request(c, ChannelSelect) else c
      case (ChannelSelect, SelectChannel(slot)) =>
        if slot <= 1 then Request(c.(runtime := r.(selectedChannel := Some(slot))), CharacterSelect) else c
      case (CharacterSelect, SelectCharacter(slot)) =>
        if slot <= 2 && slot < |r.area.slots| then
          c.(runtime := r.(area := r.area.(
            selectedSlot := Some(slot),
            selectedId := if r.area.slots[slot].Occupied? then Some(r.area.slots[slot].id) else None)))
        else c
      case (CharacterSelect, BeginCreate(slot)) =>
        if CreateSlot(r.area) == Some(slot) then
          c.(runtime := r.(area := r.area.(mode := Creating(slot), draft := Some(Draft(slot, "")))))
        else c
      case (CharacterSelect, Back) => Request(c, ChannelSelect)
      case (ChannelSelect, Back) => Request(c, Login)
      case _ => c
  }

  function Position(roster: seq<Character>, id: nat, from: nat): (p: Option<nat>)
    ensures p.Some? ==> from <= p.value < |roster| && roster[p.value].id == id && forall i :: from <= i < p.value ==>
      roster[i].id != id
    ensures p.None? ==> forall i :: from <= i < |roster| ==> roster[i].id != id
    decreases |roster| - from
  {
    if from >= |roster| then None else if roster[from].id == id then Some(from) else Position(roster, id, from + 1)
  }

  function SlotFor(roster: seq<Character>, i: nat): Slot {
    if i < |roster| then Occupied(roster[i].id, roster[i].name) else Empty
  }

  /** `replace_roster`: the first three entries fill the slots, and the selection follows its id. */
  function ReplaceRoster(a: Area, roster: seq<Character>): Area {
    var slot := if a.selectedId.Some? then Position(roster, a.selectedId.value, 0) else None;
    a.(slots := [SlotFor(roster, 0), SlotFor(roster, 1), SlotFor(roster, 2)],
       selectedSlot := slot, selectedId := if slot.None? then None else a.selectedId)
  }

  function SessionReady(c: Client, roster: seq<Character>): Client {
    Request(c.(runtime := c.runtime.(session := Ready, area := ReplaceRoster(c.runtime.area, roster))), ChannelSelect)
  }

  function FindName(roster: seq<Character>, name: string): Option<nat> {
    if roster == [] then None else if roster[0].name == name then Some(roster[0].id) else FindName(roster[1..], name)
  }

  function CreationResult(r: Runtime, result: CreateResult): Runtime {
    if r.area.creation != Pending then r
    else
      match result
      case Created(roster) =>
        var created := if r.area.draft.Some? then FindName(roster, r.area.draft.value.name) else None;
        r.(area := Cancel(ReplaceRoster(r.area.(selectedId := created), roster)))
      case NotCreated => r.(area := r.area.(creation := Rejected))
  }

  /** `advance_handoff`: the new state, and the id it yields when the screen has gone black. */
  function AdvanceHandoff(r: Runtime, dt: real): (Runtime, Option<nat>) {
    if dt <= 0.0 then (r, None)
    else
      match r.handoff
      case FadingOut(id, elapsed) =>
        if elapsed + dt >= FADE_OUT then (r.(handoff := WaitingForGameplay), Some(id))
        else (r.(handoff := FadingOut(id, elapsed + dt)), None)
      case FadingIn(since) =>
        (r.(handoff := if since + dt >= FADE_IN then NoHandoff else FadingIn(since + dt)), None)
      case _ => (r, None)
  }

  function GameplayReady(r: Runtime): Runtime {
    if r.handoff.WaitingForGameplay? then r.(handoff := WaitingForWorldReady) else r
  }

  function WorldReady(r: Runtime, ready: bool): Runtime {
    if ready && r.handoff.WaitingForWorldReady? then r.(handoff := FadingIn(0.0)) else r
  }

  function EnterRejected(r: Runtime, reason: Rejection): Runtime {
    if r.handoff.WaitingForGameplay? then r.(enterRejection := Some(reason), handoff := FadingIn(0.0)) else r
  }

  function Disconnect(c: Client): Client {
    Client(c.runtime.(handoff := NoHandoff, enterRejection := None, session := Disconnected, area := EMPTY_AREA,
                      selectedChannel := None, target := Some(Login)),
           Scene.RequestStop(c.camera, Scene.Login))
  }

  function Advance(c: Client, dt: real): Client {
    var r := c.runtime;
    if dt <= 0.0 then c
    else if r.target.Some? then
      var camera := Scene.AdvanceCamera(c.camera, dt);
      if Scene.IsAt(camera, StopOf(r.target.value)) then
        Client(r.(stage := r.target.value, target := None, introElapsed := 0.0), camera)
      else Client(r, camera)
    else if r.stage == Intro then
      var next := c.(runtime := r.(introElapsed := r.introElapsed + dt));
      if r.introElapsed + dt >= INTRO_DELAY then Request(next, Login) else next
    else c
  }

  // The class.

  class FrontendRuntime {
    var handoff: Handoff
    var enterRejection: Option<Rejection>
    var session: Session
    var stage: Stage
    var target: Option<Stage>
    var introElapsed: real
    var selectedChannel: Option<nat>
    var area: Area

    function Value(): Runtime
      reads this
    {
      Runtime(handoff, enterRejection, session, stage, target, introElapsed, selectedChannel, area)
    }

    constructor ()
      ensures Value() == START.runtime
    {
      handoff, enterRejection, session := NoHandoff, None, Disconnected;
      stage, target, introElapsed, selectedChannel := Intro, None, 0.0, None;
      area := EMPTY_AREA;
    }

    method RequestStage(next: Stage, scene: Scene.FrontendScene)
      modifies this, scene
      ensures Client(Value(), scene.Value()) == Request(old(Client(Value(), scene.Value())), next)
    {
      if handoff != NoHandoff || area.creation == Pending || target.Some? || next == stage { return; }
      target := Some(next);
      area := Cancel(area);
      scene.Request(StopOf(next));
    }

    method Perform(action: Action, scene: Scene.FrontendScene)
      modifies this, scene
      ensures Client(Value(), scene.Value()) == Act(old(Client(Value(), scene.Value())), action)
    {
      if handoff != NoHandoff { return; }
      if action.EnterWorld? {
        var id := EnterCharacter(Value());
        if id.Some? {
          enterRejection := None;
          handoff := FadingOut(id.value, 0.0);
        }
        return;
      }
      if area.creation == Pending || target.Some? { return; }
      if stage == CharacterSelect && area.mode.Creating? {
        if action.Back? || action.CancelCreation? {
          area := Cancel(area);
        } else if action.CreateCharacter? && CanCreate(area) {
          area := area.(creation := Pending);
        }
        return;
      }
      var next;
      match (stage, action) {
        case (Login, ContinueFromLogin) =>
          if session != Ready { return; }
          next := ChannelSelect;
        case (ChannelSelect, SelectChannel(slot)) =>
          if slot > 1 { return; }
          selectedChannel := Some(slot);
          next := CharacterSelect;
        case (CharacterSelect, SelectCharacter(slot)) =>
          if slot <= 2 && slot < |area.slots| {
            area := area.(selectedSlot := Some(slot));
            area := area.(selectedId := if area.slots[slot].Occupied? then Some(area.slots[slot].id) else None);
          }
          return;
        case (CharacterSelect, BeginCreate(slot)) =>
          if CreateSlot(area) == Some(slot) {
            area := area.(mode := Creating(slot), draft := Some(Draft(slot, "")));
          }
          return;
        case (CharacterSelect, Back) => next := ChannelSelect;
        case (ChannelSelect, Back) => next := Login;
        case _ => return;
      }
      RequestStage(next, scene);
    }

    method TakeRoster(roster: seq<Character>)
      modifies this`area
      ensures area == ReplaceRoster(old(area), roster)
    {
      area := area.(slots := [SlotFor(roster, 0), SlotFor(roster, 1), SlotFor(roster, 2)]);
      area := area.(selectedSlot := if area.selectedId.Some? then Position(roster, area.selectedId.value, 0) else None);
      if area.selectedSlot.None? { area := area.(selectedId := None); }
    }

    method OnSessionReady(roster: seq<Character>, scene: Scene.FrontendScene)
      modifies this, scene
      ensures Client(Value(), scene.Value()) == SessionReady(old(Client(Value(), scene.Value())), roster)
    {
      session := Ready;
      TakeRoster(roster);
      RequestStage(ChannelSelect, scene);
    }

    method OnCreateResult(result: CreateResult)
      modifies this
      ensures Value() == CreationResult(old(Value()), result)
    {
      if area.creation != Pending { return; }
      match result {
        case Created(roster) =>
          var created := if area.draft.Some? then FindName(roster, area.draft.value.name) else None;
          area := area.(selectedId := created);
          TakeRoster(roster);
          area := Cancel(area);
        case NotCreated => area := area.(creation := Rejected);
      }
    }

    method AdvanceFade(dt: real) returns (yielded: Option<nat>)
      modifies this
      ensures (Value(), yielded) == AdvanceHandoff(old(Value()), dt)
    {
      yielded := None;
      if dt <= 0.0 { return; }
      match handoff {
        case FadingOut(id, before) =>
          var elapsed := before + dt;
          if elapsed >= FADE_OUT {
            handoff := WaitingForGameplay;
            return Some(id);
          }
          handoff := FadingOut(id, elapsed);
        case FadingIn(before) =>
          var elapsed := before + dt;
          handoff := if elapsed >= FADE_IN then NoHandoff else FadingIn(elapsed);
        case _ =>
      }
    }

    method OnDisconnected(scene: Scene.FrontendScene)
      modifies this, scene
      ensures Client(Value(), scene.Value()) == Disconnect(old(Client(Value(), scene.Value())))
    {
      handoff, enterRejection, session := NoHandoff, None, Disconnected;
      area := EMPTY_AREA;
      selectedChannel := None;
      target := Some(Login);
      scene.Request(Scene.Login);
    }

    method Tick(dt: real, scene: Scene.FrontendScene)
      requires scene.transition.Some? ==> scene.transition.value.duration > 0.0
      modifies this, scene
      ensures Client(Value(), scene.Value()) == Advance(old(Client(Value(), scene.Value())), dt)
    {
      if dt <= 0.0 { return; }
      if target.Some? {
        scene.Advance(dt);
        if Scene.IsAt(scene.Value(), StopOf(target.value)) {
          stage := target.value;
          target := None;
          introElapsed := 0.0;
        }
      } else if stage == Intro {
        introElapsed := introElapsed + dt;
        if introElapsed >= INTRO_DELAY { RequestStage(Login, scene); }
      }
    }
  }

  // Runs.

  datatype Event =
    | Acted(action: Action)
    | Requested(stage: Stage)
    | Typed(name: string)
    | ConnectAsked
    | SessionReadied(roster: seq<Character>)
    | CreationAnswered(result: CreateResult)
    | Ticked(dt: real)
    | FadeTicked(dt: real)
    | GameplayReadied
    | WorldReadied(ready: bool)
    | EnterRefused(reason: Rejection)
    | Dropped

  function Take(c: Client, e: Event): Client {
    match e
    case Acted(action) => Act(c, action)
    case Requested(stage) => Request(c, stage)
    case Typed(name) =>
      var a := c.runtime.area;
      if a.draft.Some? then c.(runtime := c.runtime.(area := a.(draft := Some(a.draft.value.(name := name))))) else c
    case ConnectAsked => c.(runtime := c.runtime.(session := Connecting))
    case SessionReadied(roster) => SessionReady(c, roster)
    case CreationAnswered(result) => c.(runtime := CreationResult(c.runtime, result))
    case Ticked(dt) => Advance(c, dt)
    case FadeTicked(dt) => c.(runtime := AdvanceHandoff(c.runtime, dt).0)
    case GameplayReadied => c.(runtime := GameplayReady(c.runtime))
    case WorldReadied(ready) => c.(runtime := WorldReady(c.runtime, ready))
    case EnterRefused(reason) => c.(runtime := EnterRejected(c.runtime, reason))
    case Dropped => Disconnect(c)
  }

  function TakeAll(c: Client, events: seq<Event>): Client
    decreases |events|
  {
    if events == [] then c else TakeAll(Take(c, events[0]), events[1..])
  }

  /** Rosters from the server hold at most three characters. */
  predicate SmallRosters(e: Event) {
    && (e.SessionReadied? ==> |e.roster| <= 3)
    && (e.CreationAnswered? && e.result.Created? ==> |e.result.roster| <= 3)
  }

  // The invariant.

  /** The selected id names the occupant of the selected slot; without one the selected slot, if any, is empty. */
  ghost predicate SelectionOk(a: Area) {
    && |a.slots| == 3
    && (a.selectedId.Some? ==>
          && a.selectedSlot.Some? && a.selectedSlot.value < 3
          && a.slots[a.selectedSlot.value].Occupied? && a.slots[a.selectedSlot.value].id == a.selectedId.value)
    && (a.selectedId.None? && a.selectedSlot.Some? ==> IsEmptySlot(a, a.selectedSlot.value))
  }

  ghost predicate CreationOk(r: Runtime) {
    match r.area.mode
    case Browsing => r.area.draft.None? && r.area.creation == Idle
    case Creating(slot) =>
      r.area.draft.Some? && r.area.draft.value.slot == slot && r.stage == CharacterSelect && r.target.None?
  }

  /** No creation goes on during a handoff, and the character stage stays put. */
  ghost predicate HandoffOk(r: Runtime) {
    r.handoff != NoHandoff ==>
      r.area.mode == Browsing && r.area.creation == Idle && r.stage == CharacterSelect && r.target.None?
  }

  /** Without a travel target the camera rests exactly at the stage's stop; with one it is heading there. */
  ghost predicate CameraOk(c: Client) {
    && Scene.Coherent(c.camera)
    && match c.runtime.target
       case None => Scene.IsAt(c.camera, StopOf(c.runtime.stage))
         && c.camera.cameraY == Scene.StopY(StopOf(c.runtime.stage))
       case Some(stage) => c.camera.target == StopOf(stage) && VisibleStage(c.runtime).None?
  }

  ghost predicate Inv(c: Client) {
    SelectionOk(c.runtime.area) && CreationOk(c.runtime) && HandoffOk(c.runtime) && CameraOk(c)
  }

  lemma RequestKeeps(c: Client, stage: Stage)
    requires Inv(c)
    ensures Inv(Request(c, stage))
  {
    Scene.RequestKeepsCoherent(c.camera, StopOf(stage));
  }

  lemma RosterKeepsSelection(a: Area, roster: seq<Character>)
    requires |roster| <= 3
    ensures SelectionOk(ReplaceRoster(a, roster))
  {
  }

  /** The bound on the roster is what the selection needs: it is kept exactly when the id stands in the first three. */
  lemma SelectionKeptIff(a: Area, roster: seq<Character>)
    ensures SelectionOk(ReplaceRoster(a, roster)) <==>
      (a.selectedId.Some? && Position(roster, a.selectedId.value, 0).Some? ==>
        Position(roster, a.selectedId.value, 0).value < 3)
  {
  }

  /** A selected id in the fourth place of a roster leaves a selected slot that does not exist. */
  lemma FourthPlaceBreaksSelection(a: Area, roster: seq<Character>)
    requires |roster| > 3 && a.selectedId == Some(roster[3].id) && forall i :: 0 <= i < 3 ==>
      roster[i].id != roster[3].id
    ensures ReplaceRoster(a, roster).selectedSlot == Some(3) && ReplaceRoster(a, roster).selectedId == a.selectedId
    ensures !SelectionOk(ReplaceRoster(a, roster))
  {
    var id := roster[3].id;
    assert Position(roster, id, 0) == Position(roster, id, 1) == Position(roster, id, 2) == Position(roster, id, 3);
  }

  lemma AdvanceKeeps(c: Client, dt: real)
    requires Inv(c)
    ensures Inv(Advance(c, dt))
  {
    var r := c.runtime;
    if dt > 0.0 {
      if r.target.Some? {
        Scene.AdvanceKeepsCoherent(c.camera, dt);
      } else if r.stage == Intro {
        RequestKeeps(c.(runtime := r.(introElapsed := r.introElapsed + dt)), Login);
      }
    }
  }

  /** Changes of the runtime alone, at the same stage and target, leave the camera part of the invariant. */
  lemma SameCamera(c: Client, r: Runtime)
    requires Inv(c) && r.stage == c.runtime.stage && r.target == c.runtime.target
    requires SelectionOk(r.area) && CreationOk(r) && HandoffOk(r)
    ensures Inv(c.(runtime := r))
  {
  }

  /** The stage to which the action asks to travel, if it does. */
  function Destination(r: Runtime, action: Action): Option<Stage> {
    match (r.stage, action)
    case (Login, ContinueFromLogin) => if r.session == Ready then Some(ChannelSelect) else None
    case (ChannelSelect, SelectChannel(slot)) => if slot <= 1 then Some(CharacterSelect) else None
    case (CharacterSelect, Back) => Some(ChannelSelect)
    case (ChannelSelect, Back) => Some(Login)
    case _ => None
  }

  lemma ActStays(c: Client, action: Action)
    requires Inv(c)
    requires c.runtime.handoff != NoHandoff || action.EnterWorld? || c.runtime.area.creation == Pending
      || c.runtime.target.Some?
      || c.runtime.area.mode.Creating? || Destination(c.runtime, action).None?
    ensures Act(c, action).camera == c.camera
    ensures var r := Act(c, action).runtime;
      r.stage == c.runtime.stage && r.target == c.runtime.target && SelectionOk(r.area) && CreationOk(r) && HandoffOk(r)
  {
  }

  lemma ActKeeps(c: Client, action: Action)
    requires Inv(c)
    ensures Inv(Act(c, action))
  {
    var r := c.runtime;
    if r.handoff != NoHandoff || action.EnterWorld? || r.area.creation == Pending || r.target.Some?
      || r.area.mode.Creating? || Destination(r, action).None?
    {
      ActStays(c, action);
      SameCamera(c, Act(c, action).runtime);
    } else if action.SelectChannel? {
      SameCamera(c, r.(selectedChannel := Some(action.slot)));
      RequestKeeps(c.(runtime := r.(selectedChannel := Some(action.slot))), CharacterSelect);
    } else {
      RequestKeeps(c, Destination(r, action).value);
    }
  }

  // One lemma for each kind of event.

  lemma ActedKeeps(c: Client, e: Event)
    requires Inv(c) && e.Acted?
    ensures Inv(Take(c, e))
  {
    ActKeeps(c, e.action);
  }

  lemma RequestedKeeps(c: Client, e: Event)
    requires Inv(c) && e.Requested?
    ensures Inv(Take(c, e))
  {
    RequestKeeps(c, e.stage);
  }

  lemma TickedKeeps(c: Client, e: Event)
    requires Inv(c) && e.Ticked?
    ensures Inv(Take(c, e))
  {
    AdvanceKeeps(c, e.dt);
  }

  lemma DroppedKeeps(c: Client, e: Event)
    requires Inv(c) && e.Dropped?
    ensures Inv(Take(c, e))
  {
    Scene.RequestKeepsCoherent(c.camera, Scene.Login);
  }

  lemma SessionReadiedKeeps(c: Client, e: Event)
    requires Inv(c) && e.SessionReadied? && SmallRosters(e)
    ensures Inv(Take(c, e))
  {
    var r := c.runtime.(session := Ready, area := ReplaceRoster(c.runtime.area, e.roster));
    RosterKeepsSelection(c.runtime.area, e.roster);
    SameCamera(c, r);
    RequestKeeps(c.(runtime := r), ChannelSelect);
  }

  lemma AnsweredKeeps(c: Client, e: Event)
    requires Inv(c) && e.CreationAnswered? && SmallRosters(e)
    ensures Inv(Take(c, e))
  {
    if e.result.Created? {
      var a := c.runtime.area;
      var created := if a.draft.Some? then FindName(e.result.roster, a.draft.value.name) else None;
      RosterKeepsSelection(a.(selectedId := created), e.result.roster);
    }
    SameCamera(c, CreationResult(c.runtime, e.result));
  }

  /** The events that reach neither the stages nor the roster. */
  predicate StaysPut(e: Event) {
    e.Typed? || e.ConnectAsked? || e.FadeTicked? || e.GameplayReadied? || e.WorldReadied? || e.EnterRefused?
  }

  lemma StaysPutKeeps(c: Client, e: Event)
    requires Inv(c) && StaysPut(e)
    ensures Inv(Take(c, e))
  {
    SameCamera(c, Take(c, e).runtime);
  }

  lemma TakeKeeps(c: Client, e: Event)
    requires Inv(c) && SmallRosters(e)
    ensures Inv(Take(c, e))
  {
    match e
    case Acted(_) => ActedKeeps(c, e);
    case Requested(_) => RequestedKeeps(c, e);
    case SessionReadied(_) => SessionReadiedKeeps(c, e);
    case CreationAnswered(_) => AnsweredKeeps(c, e);
    case Ticked(_) => TickedKeeps(c, e);
    case Dropped => DroppedKeeps(c, e);
    case _ => StaysPutKeeps(c, e);
  }

  /** In every reachable state the creation, selection, handoff and camera invariants hold. */
  lemma {:induction false} Reachable(c: Client, events: seq<Event>)
    requires Inv(c) && forall e :: e in events ==> SmallRosters(e)
    ensures Inv(TakeAll(c, events))
    decreases |events|
  {
    if events != [] {
      TakeKeeps(c, events[0]);
      Reachable(Take(c, events[0]), events[1..]);
    }
  }

  lemma StartInv()
    ensures Inv(START)
  {
  }

  /** Whenever a creation is pending there is a draft to send: the `unwrap` in `app.rs` cannot fail. */
  lemma PendingHasDraft(events: seq<Event>)
    requires forall e :: e in events ==> SmallRosters(e)
    ensures var a := TakeAll(START, events).runtime.area;
      a.creation == Pending ==> a.draft.Some? && a.mode == Creating(a.draft.value.slot)
  {
    StartInv();
    Reachable(START, events);
  }

  /** The travel is over and the stage shows its foreground, which the intro does not have. */
  predicate Foreground(c: Client, stage: Stage) {
    c.runtime.target.None? && c.runtime.stage == stage && VisibleStage(c.runtime) == if stage == Intro then None
      else Some(stage)
  }

  function TicksOnly(c: Client, ticks: seq<real>): Client
    decreases |ticks|
  {
    if ticks == [] then c else TicksOnly(Advance(c, ticks[0]), ticks[1..])
  }

  /** What is left of the second; nothing for the travel that a disconnect starts while the camera is at the login. */
  function Remaining(c: Client): real {
    if c.camera.transition.Some? then 1.0 - c.camera.transition.value.elapsed else 0.0
  }

  predicate AllPositive(ticks: seq<real>) { forall i :: 0 <= i < |ticks| ==> ticks[i] > 0.0 }

  /** A tick either ends the travel, or uses up its length of what remains. */
  lemma TravelTick(c: Client, dt: real)
    requires Inv(c) && c.runtime.target.Some? && dt > 0.0
    ensures var next, target := Advance(c, dt), c.runtime.target.value;
      && Inv(next)
      && if dt >= Remaining(c) then Foreground(next, target)
         else next.runtime.target == Some(target) && 0.0 < Remaining(next) == Remaining(c) - dt
  {
    AdvanceKeeps(c, dt);
  }

  lemma {:induction false} ArrivesIn(c: Client, ticks: seq<real>) returns (n: nat)
    requires Inv(c) && c.runtime.target.Some? && AllPositive(ticks)
    requires ticks != [] && Scene.Total(ticks) >= Remaining(c)
    ensures n <= |ticks| && Foreground(TicksOnly(c, ticks[..n]), c.runtime.target.value)
    decreases |ticks|
  {
    TravelTick(c, ticks[0]);
    var next := Advance(c, ticks[0]);
    n := 1;
    if ticks[0] >= Remaining(c) {
      assert ticks[..1] == [ticks[0]] && ticks[..1][1..] == [];
      assert TicksOnly(c, ticks[..1]) == TicksOnly(next, []) == next;
    } else {
      var m := ArrivesIn(next, ticks[1..]);
      n := m + 1;
      assert ticks[..n][0] == ticks[0] && ticks[..n][1..] == ticks[1..][..m];
    }
  }

  lemma {:induction false} StillTravelling(c: Client, ticks: seq<real>)
    requires Inv(c) && c.runtime.target.Some? && AllPositive(ticks)
    requires ticks == [] || Scene.Total(ticks) < Remaining(c)
    ensures TicksOnly(c, ticks).runtime.target.Some?
    decreases |ticks|
  {
    if ticks != [] {
      Scene.TotalNonnegative(ticks[1..]);
      TravelTick(c, ticks[0]);
      StillTravelling(Advance(c, ticks[0]), ticks[1..]);
    }
  }

  lemma {:induction false} PrefixTotal(ticks: seq<real>, n: nat)
    requires n <= |ticks| && AllPositive(ticks)
    ensures Scene.Total(ticks[..n]) <= Scene.Total(ticks)
  {
    if n > 0 {
      assert ticks[..n][1..] == ticks[1..][..n - 1];
      PrefixTotal(ticks[1..], n - 1);
    } else {
      Scene.TotalNonnegative(ticks);
    }
  }

  /** The new stage shows once the positive ticks add up to what remained of the second, however they are cut. */
  lemma TravelArrives(c: Client, ticks: seq<real>)
    requires Inv(c) && c.runtime.target.Some? && AllPositive(ticks)
    ensures (exists n: nat :: n <= |ticks| && Foreground(TicksOnly(c, ticks[..n]), c.runtime.target.value)) <==>
      ticks != [] && Scene.Total(ticks) >= Remaining(c)
  {
    if ticks != [] && Scene.Total(ticks) >= Remaining(c) {
      var n := ArrivesIn(c, ticks);
    } else {
      forall n: nat | n <= |ticks| ensures !Foreground(TicksOnly(c, ticks[..n]), c.runtime.target.value) {
        PrefixTotal(ticks, n);
        StillTravelling(c, ticks[..n]);
      }
    }
  }

  // Entering the world.

  /** What a run shows of handoffs: acceptances, yields to the network, and disconnects. */
  datatype Sign = Accepted(id: nat) | Yielded(id: nat) | Lost

  function SignsOf(c: Client, e: Event): seq<Sign> {
    match e
    case Acted(EnterWorld) =>
      if c.runtime.handoff == NoHandoff && EnterCharacter(c.runtime).Some? then
        [Accepted(EnterCharacter(c.runtime).value)]
      else []
    case FadeTicked(dt) =>
      var yielded := AdvanceHandoff(c.runtime, dt).1;
      if yielded.Some? then [Yielded(yielded.value)] else []
    case Dropped => [Lost]
    case _ => []
  }

  function Signs(c: Client, events: seq<Event>): seq<Sign>
    decreases |events|
  {
    if events == [] then [] else SignsOf(c, events[0]) + Signs(Take(c, events[0]), events[1..])
  }

  /** Each yield answers the acceptance just before it, once and with the same id. */
  predicate Paired(signs: seq<Sign>, owed: Option<nat>)
    decreases |signs|
  {
    signs == [] ||
    match signs[0]
    case Accepted(id) => owed.None? && Paired(signs[1..], Some(id))
    case Yielded(id) => owed == Some(id) && Paired(signs[1..], None)
    case Lost => Paired(signs[1..], None)
  }

  function Owed(r: Runtime): Option<nat> { if r.handoff.FadingOut? then Some(r.handoff.id) else None }

  lemma OwedStep(c: Client, e: Event)
    ensures SignsOf(c, e) == [] ==> Owed(Take(c, e).runtime) == Owed(c.runtime)
    ensures forall id: nat :: SignsOf(c, e) == [Accepted(id)] ==>
      Owed(c.runtime) == None && Owed(Take(c, e).runtime) == Some(id)
    ensures forall id: nat :: SignsOf(c, e) == [Yielded(id)] ==>
      Owed(c.runtime) == Some(id) && Owed(Take(c, e).runtime) == None
    ensures SignsOf(c, e) == [Lost] ==> Owed(Take(c, e).runtime) == None
  {
  }

  /** Over every run, entering happens once per acceptance and for the accepted character. */
  lemma {:induction false} EntersOnce(c: Client, events: seq<Event>)
    ensures Paired(Signs(c, events), Owed(c.runtime))
    decreases |events|
  {
    if events != [] {
      var first, rest := SignsOf(c, events[0]), Signs(Take(c, events[0]), events[1..]);
      OwedStep(c, events[0]);
      EntersOnce(Take(c, events[0]), events[1..]);
      if first == [] {
        assert first + rest == rest;
      } else {
        assert (first + rest)[0] == first[0] && (first + rest)[1..] == rest;
      }
    }
  }

  /** An accepted id is the selected character, it occupies the selected slot, and nothing is being created. */
  lemma AcceptedIsSelected(c: Client, id: nat)
    requires Inv(c) && SignsOf(c, Acted(EnterWorld)) == [Accepted(id)]
    ensures var a := c.runtime.area;
      && a.selectedId == Some(id) && a.selectedSlot.Some? && a.selectedSlot.value < 3
      && a.slots[a.selectedSlot.value].Occupied? && a.slots[a.selectedSlot.value].id == id
      && a.creation == Idle && a.draft.None? && c.runtime.session == Ready
  {
  }

  predicate Dark(r: Runtime) { r.handoff.WaitingForGameplay? || r.handoff.WaitingForWorldReady? }

  /** The events that may end the darkness: the world is ready, the entry is rejected, or the connection drops. */
  predicate Releases(r: Runtime, e: Event) {
    || (e == WorldReadied(true) && r.handoff.WaitingForWorldReady?)
    || (e.EnterRefused? && r.handoff.WaitingForGameplay?)
    || e == Dropped
  }

  predicate NeverReleased(c: Client, events: seq<Event>)
    decreases |events|
  {
    events == [] || (!Releases(c.runtime, events[0]) && NeverReleased(Take(c, events[0]), events[1..]))
  }

  /** From the yield until one of those events the screen is fully black and input stays locked. */
  lemma {:induction false} DarkUntilReleased(c: Client, events: seq<Event>)
    requires Dark(c.runtime) && NeverReleased(c, events)
    ensures var r := TakeAll(c, events).runtime; Dark(r) && EnterAlpha(r) == 1.0 && InputLocked(r)
    decreases |events|
  {
    if events != [] {
      assert Dark(Take(c, events[0]).runtime);
      DarkUntilReleased(Take(c, events[0]), events[1..]);
    }
  }

  /** A yield is the moment the screen turns black. */
  lemma YieldIsDark(c: Client, dt: real)
    requires AdvanceHandoff(c.runtime, dt).1.Some?
    ensures Dark(Take(c, FadeTicked(dt)).runtime) && c.runtime.handoff.FadingOut?
    ensures c.runtime.handoff.elapsed + dt >= FADE_OUT
  {
  }
}
