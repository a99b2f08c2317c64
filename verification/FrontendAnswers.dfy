/** What each event does to the front end, told event by event on the fields of its state. */
module FrontendAnswers {
  import opened Basics
  import opened Frontend
  import Scene

  /** Input is taken: no handoff, no pending creation, no travel. */
  predicate Idles(r: Runtime) { r.handoff == NoHandoff && r.area.creation != Pending && r.target.None? }

  predicate IsCreating(r: Runtime) { r.stage == CharacterSelect && r.area.mode.Creating? }

  /** The table of the travels that input starts. */
  predicate Leads(r: Runtime, action: Action, to: Stage) {
    && Idles(r) && !IsCreating(r)
    && match (r.stage, to)
       case (Login, ChannelSelect) => action == ContinueFromLogin && r.session == Ready
       case (ChannelSelect, CharacterSelect) => action == SelectChannel(0) || action == SelectChannel(1)
       case (ChannelSelect, Login) => action == Back
       case (CharacterSelect, ChannelSelect) => action == Back
       case _ => false
  }

  /** The same area without draft and creation. */
  predicate Cancelled(before: Area, after: Area) {
    && after.mode == Browsing && after.draft == None && after.creation == Idle
    && after.slots == before.slots && after.selectedId == before.selectedId && after.selectedSlot == before.selectedSlot
  }

  /** Everything of the runtime but the area and the target. */
  predicate SameOutside(a: Runtime, b: Runtime) {
    && a.handoff == b.handoff && a.enterRejection == b.enterRejection && a.session == b.session && a.stage == b.stage
    && a.introElapsed == b.introElapsed && a.selectedChannel == b.selectedChannel
  }

  /** A travel has begun: the target is set, the area is cancelled, and the camera leaves from where it is. */
  predicate Departs(before: Client, after: Client, to: Stage) {
    && after.runtime.target == Some(to) && Cancelled(before.runtime.area, after.runtime.area)
    && after.camera.target == StopOf(to)
    && (before.camera.target == StopOf(to) ==> after.camera == before.camera)
    && (before.camera.target != StopOf(to) ==>
          && after.camera.cameraY == before.camera.cameraY
          && after.camera.transition == Some(Scene.Transition(before.camera.cameraY, Height(to), 0.0, 1.0)))
  }

  /** Where the stages lie in the scene. */
  function Height(stage: Stage): real {
    match stage
    case Intro => 0.0
    case Login => 1227.0
    case ChannelSelect => 2453.0
    case CharacterSelect => 3680.0
  }

  /** Input starts a travel exactly by the table, and choosing a channel remembers it. */
  lemma ActTravels(c: Client, action: Action)
    ensures var next := Act(c, action);
      && (forall to :: Leads(c.runtime, action, to) ==> Departs(c, next, to))
      && (next.runtime.target != c.runtime.target ==> exists to :: Leads(c.runtime, action, to))
      && ((forall to :: !Leads(c.runtime, action, to)) ==> next.camera == c.camera)
      && next.runtime.stage == c.runtime.stage && next.runtime.session == c.runtime.session
      && next.runtime.introElapsed == c.runtime.introElapsed
      && next.runtime.selectedChannel ==
        if action.SelectChannel? && Leads(c.runtime, action, CharacterSelect) then Some(action.slot)
        else c.runtime.selectedChannel
  {
    forall to | Leads(c.runtime, action, to) ensures Departs(c, Act(c, action), to) {
      LeadsDeparts(c, action, to);
    }
    NothingElseLeads(c, action);
  }

  lemma LeadsDeparts(c: Client, action: Action, to: Stage)
    requires Leads(c.runtime, action, to)
    ensures Departs(c, Act(c, action), to)
  {
  }

  lemma NothingElseLeads(c: Client, action: Action)
    ensures var next := Act(c, action);
      && (next.runtime.target != c.runtime.target ==> exists to :: Leads(c.runtime, action, to))
      && ((forall to :: !Leads(c.runtime, action, to)) ==> next.camera == c.camera)
  {
    var r := c.runtime;
    if Act(c, action).runtime.target != r.target || Act(c, action).camera != c.camera {
      assert Leads(r, action, Login) || Leads(r, action, ChannelSelect) || Leads(r, action, CharacterSelect);
    }
  }

  /** The selected character stands in a slot, and the way into the world is free. */
  ghost predicate MayEnter(r: Runtime) {
    && r.handoff == NoHandoff && r.session == Ready && r.stage == CharacterSelect && r.target.None?
    && r.area.mode == Browsing && r.area.creation != Pending && r.area.selectedId.Some?
    && exists i :: 0 <= i < |r.area.slots| && r.area.slots[i].Occupied? && r.area.slots[i].id == r.area.selectedId.value
  }

  /** Entering the world starts the fade for the selected character if it may, and nothing else touches the handoff. */
  lemma ActEnters(c: Client, action: Action)
    ensures var r, next := c.runtime, Act(c, action).runtime;
      if action == EnterWorld && MayEnter(r) then
        next == r.(handoff := FadingOut(r.area.selectedId.value, 0.0), enterRejection := None)
      else next.handoff == r.handoff && next.enterRejection == r.enterRejection
  {
  }

  /** Three to twelve letters and digits. */
  predicate GoodName(name: string) {
    3 <= |name| <= 12
    && forall i :: 0 <= i < |name| ==> 'a' <= name[i] <= 'z' || 'A' <= name[i] <= 'Z' || '0' <= name[i] <= '9'
  }

  /** What input does to the area when it starts no travel. */
  predicate AreaTakes(r: Runtime, action: Action, after: Area) {
    var a := r.area;
    match action
    case SelectCharacter(slot) =>
      if Idles(r) && r.stage == CharacterSelect && a.mode == Browsing && slot < 3 && slot < |a.slots| then
        after.selectedSlot == Some(slot)
        && after.selectedId == (if a.slots[slot].Occupied? then Some(a.slots[slot].id) else None)
        && after.slots == a.slots && after.creation == a.creation && after.mode == a.mode && after.draft == a.draft
      else after == a
    case BeginCreate(slot) =>
      if Idles(r) && r.stage == CharacterSelect && a.mode == Browsing && a.selectedSlot == Some(slot)
        && slot < |a.slots| && a.slots[slot] == Empty
      then
        after.mode == Creating(slot) && after.draft == Some(Draft(slot, ""))
        && after.slots == a.slots && after.creation == a.creation
        && after.selectedId == a.selectedId && after.selectedSlot == a.selectedSlot
      else after == a
    case CreateCharacter =>
      if Idles(r) && IsCreating(r) && a.draft.Some? && a.mode.slot == a.draft.value.slot && GoodName(a.draft.value.name)
        && a.draft.value.slot < |a.slots| && a.slots[a.draft.value.slot] == Empty
      then
        after.creation == Pending && after.mode == a.mode && after.draft == a.draft && after.slots == a.slots
        && after.selectedId == a.selectedId && after.selectedSlot == a.selectedSlot
      else after == a
    case CancelCreation => if Idles(r) && IsCreating(r) then Cancelled(a, after) else after == a
    case Back => if Idles(r) && IsCreating(r) then Cancelled(a, after) else after == a
    case _ => after == a
  }

  /** Selecting, starting, sending and cancelling a creation do what they say, each only when it may. */
  lemma ActChangesArea(c: Client, action: Action)
    ensures (forall to :: !Leads(c.runtime, action, to)) ==>
      AreaTakes(c.runtime, action, Act(c, action).runtime.area)
  {
    var r := c.runtime;
    assert Leads(r, action, Login) || Leads(r, action, ChannelSelect) || Leads(r, action, CharacterSelect)
      || AreaTakes(r, action, Act(c, action).runtime.area);
  }

  /** A request from outside departs unless a handoff, a pending creation or a travel goes on, or it is the stage. */
  lemma RequestTells(c: Client, stage: Stage)
    ensures if Idles(c.runtime) && stage != c.runtime.stage
      then Departs(c, Request(c, stage), stage) && SameOutside(c.runtime, Request(c, stage).runtime)
      else Request(c, stage) == c
  {
  }

  // The server's answers.

  /** The slots show the first three characters, and the selection stays with its character or is dropped. */
  ghost predicate RosterShown(before: Area, roster: seq<Character>, after: Area) {
    && |after.slots| == 3
    && (forall i :: 0 <= i < 3 ==>
          after.slots[i] == if i < |roster| then Occupied(roster[i].id, roster[i].name) else Empty)
    && (if before.selectedId.Some? && exists i :: 0 <= i < |roster| && roster[i].id == before.selectedId.value then
          && after.selectedId == before.selectedId && after.selectedSlot.Some?
          && after.selectedSlot.value < |roster| && roster[after.selectedSlot.value].id == before.selectedId.value
          && forall i :: 0 <= i < after.selectedSlot.value ==> roster[i].id != before.selectedId.value
        else after.selectedId == None && after.selectedSlot == None)
  }

  lemma ReplaceRosterTells(a: Area, roster: seq<Character>)
    ensures var after := ReplaceRoster(a, roster);
      RosterShown(a, roster, after) && after.creation == a.creation && after.mode == a.mode && after.draft == a.draft
  {
  }

  /** A ready session shows the roster and departs for the channels, unless something is going on. */
  lemma SessionReadyTells(c: Client, roster: seq<Character>)
    ensures var next := SessionReady(c, roster);
      && next.runtime.session == Ready
      && (if Idles(c.runtime) && c.runtime.stage != ChannelSelect then next.runtime.target == Some(ChannelSelect)
          else next.runtime.target == c.runtime.target && next.camera == c.camera)
      && RosterShown(c.runtime.area, roster, next.runtime.area)
  {
    ReplaceRosterTells(c.runtime.area, roster);
  }

  lemma {:induction false} FindNameTells(roster: seq<Character>, name: string)
    ensures match FindName(roster, name)
      case None => forall i :: 0 <= i < |roster| ==> roster[i].name != name
      case Some(id) => exists i :: FirstNamed(roster, name, i) && roster[i].id == id
  {
    if roster != [] && roster[0].name != name {
      FindNameTells(roster[1..], name);
      forall i | 0 < i < |roster| ensures roster[i] == roster[1..][i - 1] {}
      if FindName(roster[1..], name).Some? {
        var i :| FirstNamed(roster[1..], name, i) && roster[1..][i].id == FindName(roster[1..], name).value;
        assert FirstNamed(roster, name, i + 1);
      }
    } else if roster != [] {
      assert FirstNamed(roster, name, 0);
    }
  }

  predicate FirstNamed(roster: seq<Character>, name: string, i: int) {
    0 <= i < |roster| && roster[i].name == name && forall j :: 0 <= j < i ==> roster[j].name != name
  }

  /** The answer to a pending creation: the new character is selected by its name, or the creation is rejected. */
  lemma CreationTells(r: Runtime, result: CreateResult)
    ensures var next := CreationResult(r, result);
      if r.area.creation != Pending then next == r
      else if result == NotCreated then next == r.(area := r.area.(creation := Rejected))
      else
        && SameOutside(r, next) && next.target == r.target
        && next.area.mode == Browsing && next.area.draft == None && next.area.creation == Idle
        && exists id :: RosterShown(r.area.(selectedId := id), result.roster, next.area) &&
             if r.area.draft.Some? && exists i :: FirstNamed(result.roster, r.area.draft.value.name, i) then
               exists i :: FirstNamed(result.roster, r.area.draft.value.name, i) && id == Some(result.roster[i].id)
             else id == None
  {
    if r.area.creation == Pending && result.Created? {
      var roster := result.roster;
      var id := if r.area.draft.Some? then FindName(roster, r.area.draft.value.name) else None;
      if r.area.draft.Some? { FindNameTells(roster, r.area.draft.value.name); }
      ReplaceRosterTells(r.area.(selectedId := id), roster);
      assert RosterShown(r.area.(selectedId := id), roster, CreationResult(r, result).area);
    }
  }

  // The handoff.

  /** The screen is black three tenths of a second after the start, and clear four tenths after the world is ready. */
  lemma FadeTells(r: Runtime, dt: real)
    ensures var (next, yielded) := AdvanceHandoff(r, dt);
      && next == r.(handoff := next.handoff)
      && (dt <= 0.0 ==> next.handoff == r.handoff && yielded == None)
      && (dt > 0.0 ==>
            match r.handoff
            case FadingOut(id, elapsed) =>
              if elapsed + dt < 0.30 then next.handoff == FadingOut(id, elapsed + dt) && yielded == None
              else next.handoff == WaitingForGameplay && yielded == Some(id)
            case FadingIn(since) =>
              next.handoff == (if since + dt < 0.40 then FadingIn(since + dt) else NoHandoff) && yielded == None
            case _ => next.handoff == r.handoff && yielded == None)
  {
  }

  /** Gameplay, then the world, then the fade in; a rejection shortens the way. Each step waits for the one before. */
  lemma HandoffTells(r: Runtime, ready: bool, reason: Rejection)
    ensures GameplayReady(r) ==
      r.(handoff := if r.handoff == WaitingForGameplay then WaitingForWorldReady else r.handoff)
    ensures WorldReady(r, ready) ==
      r.(handoff := if ready && r.handoff == WaitingForWorldReady then FadingIn(0.0) else r.handoff)
    ensures EnterRejected(r, reason) ==
      if r.handoff == WaitingForGameplay then r.(handoff := FadingIn(0.0), enterRejection := Some(reason)) else r
  {
  }

  /** After a disconnect only the stage and the intro's clock are what they were. */
  lemma DisconnectTells(c: Client)
    ensures var next := Disconnect(c).runtime;
      && next.session == Disconnected && next.handoff == NoHandoff && next.enterRejection == None
      && next.selectedChannel == None && next.target == Some(Login)
      && next.stage == c.runtime.stage && next.introElapsed == c.runtime.introElapsed
      && next.area.slots == [Empty, Empty, Empty] && next.area.mode == Browsing && next.area.draft == None
      && next.area.creation == Idle && next.area.selectedId == None && next.area.selectedSlot == None
      && Disconnect(c).camera.target == Scene.Login
  {
  }

  /** The intro departs for the login after five quarters of a second, unless something goes on. */
  lemma IntroTells(c: Client, dt: real)
    requires c.runtime.target.None? && dt > 0.0
    ensures var r, next := c.runtime, Advance(c, dt);
      if r.stage != Intro then next == c
      else
        && next.runtime.introElapsed == r.introElapsed + dt
        && (if r.introElapsed + dt >= 1.25 && Idles(r) then Departs(c, next, Login)
            else next == c.(runtime := r.(introElapsed := r.introElapsed + dt)))
  {
  }

  // The camera.

  /** The smooth step. */
  function Smooth(e: real): real { 3.0 * e * e - 2.0 * e * e * e }

  lemma EaseIsSmooth(e: real)
    ensures Scene.Ease(e) == Smooth(e)
  {
  }

  /** The camera has gone the smooth step of `e` of the way from `y` to the stage. */
  predicate Gone(now: Scene.Camera, y: real, stage: Stage, e: real) {
    now.cameraY == y + (Height(stage) - y) * Smooth(e)
  }

  lemma MovingIsGone(now: Scene.Camera, y: real, stage: Stage, e: real)
    requires Scene.Coherent(now) && now.target == StopOf(stage) && now.transition.Some?
    requires now.transition.value.sourceY == y && now.transition.value.elapsed == e
    ensures Gone(now, y, stage, e)
  {
    EaseIsSmooth(e);
  }

  lemma Departed(c: Scene.Camera, stage: Stage)
    requires Scene.Coherent(c) && c.target != StopOf(stage)
    ensures var begun := Scene.RequestStop(c, StopOf(stage));
      Scene.Coherent(begun) && begun.target == StopOf(stage)
      && begun.transition == Some(Scene.Transition(c.cameraY, Height(stage), 0.0, 1.0))
  {
    Scene.RequestKeepsCoherent(c, StopOf(stage));
  }

  /** A second after a request the camera is at the stage, and `e` seconds after it `Smooth(e)` of the way there. */
  lemma CameraTells(c: Scene.Camera, stage: Stage, ticks: seq<real>)
    requires Scene.Coherent(c) && c.target != StopOf(stage) && forall i :: 0 <= i < |ticks| ==> ticks[i] > 0.0
    ensures var e, now := Scene.Total(ticks), Scene.AdvanceAll(Scene.RequestStop(c, StopOf(stage)), ticks);
      && now.target == StopOf(stage)
      && (e >= 1.0 ==> now.cameraY == Height(stage) && now.transition == None)
      && (e < 1.0 ==> Gone(now, c.cameraY, stage, e))
  {
    Departed(c, stage);
    ComesTo(Scene.RequestStop(c, StopOf(stage)), c.cameraY, stage, ticks);
  }

  lemma ComesTo(begun: Scene.Camera, y: real, stage: Stage, ticks: seq<real>)
    requires Scene.Coherent(begun) && begun.target == StopOf(stage) && forall i :: 0 <= i < |ticks| ==> ticks[i] > 0.0
    requires begun.transition == Some(Scene.Transition(y, Height(stage), 0.0, 1.0))
    ensures var e, now := Scene.Total(ticks), Scene.AdvanceAll(begun, ticks);
      && now.target == StopOf(stage)
      && (e >= 1.0 ==> now.cameraY == Height(stage) && now.transition == None)
      && (e < 1.0 ==> Gone(now, y, stage, e))
  {
    var now := Scene.AdvanceAll(begun, ticks);
    Scene.ArrivesAfterOneSecond(begun, ticks);
    SourceStays(begun, ticks);
    if now.transition.Some? { MovingIsGone(now, y, stage, Scene.Total(ticks)); }
  }

  lemma {:induction false} SourceStays(c: Scene.Camera, ticks: seq<real>)
    requires Scene.Coherent(c) && c.transition.Some?
    ensures var now := Scene.AdvanceAll(c, ticks);
      now.transition.Some? ==> now.transition.value.sourceY == c.transition.value.sourceY
    decreases |ticks|
  {
    if ticks != [] {
      Scene.AdvanceKeepsCoherent(c, ticks[0]);
      var next := Scene.AdvanceCamera(c, ticks[0]);
      if next.transition.Some? { SourceStays(next, ticks[1..]); } else { Scene.RestingStays(next, ticks[1..]); }
    }
  }
}
