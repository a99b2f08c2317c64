/**
 What each event does to the dialogue projection, told on its fields, and where what is shown comes from
 in a run from the start of the client.
 */
module DialogueAnswers {
  import opened Basics
  import opened Dialogue

  /** The line names an authored beat that has such a line. */
  predicate Authored(reg: Registry, line: Line) {
    line.npc in reg && line.beat < |reg[line.npc]| && line.index < reg[line.npc][line.beat].lines
  }

  /** The choices written for the beat of the line on show. */
  predicate Written(p: Projection, reg: Registry, choices: seq<string>) {
    && p.active.Some? && p.active.value.npc in reg && p.active.value.beat < |reg[p.active.value.npc]|
    && choices == reg[p.active.value.npc][p.active.value.beat].choices
  }

  /** Choices are up for selection: some are written, and none has just been accepted. */
  predicate Offered(p: Projection, reg: Registry, choices: seq<string>) {
    Written(p, reg, choices) && choices != [] && p.accepted.None?
  }

  /** The line is on show, and the revision has moved if it was not before. */
  predicate Shows(before: Projection, after: Projection, line: Line) {
    && after.active == Some(line)
    && after.revision == if before.active == Some(line) then before.revision else (before.revision + 1) % REVISIONS
  }

  predicate SameChoice(a: Projection, b: Projection) { a.selected == b.selected && a.accepted == b.accepted }

  /**
   A line counts in the open interaction only. One that is not authored takes the shown line away; one that
   is waits while a choice of its session is shown, and is shown with the first choice selected otherwise.
   */
  lemma LineTells(c: Client, line: Line, reg: Registry)
    ensures var next := Take(c, LineCame(line), reg); var p, q := c.p, next.p;
      && next.ui == c.ui && q.accepted == p.accepted
      && (c.ui != Active(line.session, line.target) ==> q == p)
      && (c.ui == Active(line.session, line.target) && !Authored(reg, line) ==>
        q.active == None && q.pending == p.pending && SameChoice(p, q) && q.revision == p.revision)
      && (c.ui == Active(line.session, line.target) && Authored(reg, line) ==>
        if p.accepted.Some? && p.accepted.value.session == line.session then
          q.pending == Some(line) && q.active == p.active && q.selected == p.selected && q.revision == p.revision
        else Shows(p, q, line) && q.pending == None && q.selected == 0)
  {
  }

  /** Why a line is refused. */
  lemma VerdictTells(p: Projection, line: Line, ui: Ui, reg: Registry)
    ensures var verdict := ApplyLine(p, line, ui, reg).1;
      && (verdict == Fine <==> ui == Active(line.session, line.target) && Authored(reg, line))
      && (verdict == Mismatch <==> ui != Active(line.session, line.target))
      && (verdict == UnknownLine <==> ui == Active(line.session, line.target) && line.npc in reg
                                      && line.beat < |reg[line.npc]| && line.index >= reg[line.npc][line.beat].lines)
  {
  }

  /** The session and the beat are those on show, and the choice is one of those written there. */
  predicate Answers(p: Projection, reg: Registry, session: nat, beat: nat, choice: nat, choices: seq<string>) {
    && Written(p, reg, choices) && p.active.value.session == session && p.active.value.beat == beat
    && choice < |choices|
  }

  /** An acceptance counts for the beat on show and a choice written there, and shows the text of that choice. */
  lemma ChoiceTells(c: Client, session: nat, beat: nat, choice: nat, reg: Registry)
    ensures var next := Take(c, ChoiceTaken(session, beat, choice), reg); var p, q := c.p, next.p;
      && next.ui == c.ui && q.active == p.active && q.pending == p.pending && q.revision == p.revision
      && (forall choices :: Answers(p, reg, session, beat, choice, choices) ==>
            q.selected == choice && q.accepted == Some(Accepted(session, choices[choice], 0)))
      && (q.selected != p.selected || q.accepted != p.accepted ==>
            exists choices :: Answers(p, reg, session, beat, choice, choices))
  {
    var p := c.p;
    if p.active.Some? && p.active.value.npc in reg && p.active.value.beat < |reg[p.active.value.npc]| {
      var written := reg[p.active.value.npc][p.active.value.beat].choices;
      assert Written(p, reg, written);
      assert choice < |written| && p.active.value.session == session && p.active.value.beat == beat ==>
          Answers(p, reg, session, beat, choice, written);
    }
  }

  /** An interaction that opens or goes on takes another one's line away; a rejected or closed one takes all. */
  lemma InteractionTells(c: Client, event: Interact, reg: Registry)
    ensures var next := Take(c, Interacted(event), reg); var p, q := c.p, next.p;
      && q.accepted == p.accepted && q.revision == p.revision
      && (event.Opened? || event.Updated? ==>
        && next.ui == Active(event.session, event.target) && q.pending == p.pending && q.selected == p.selected
        && (q.active == p.active || q.active.None?)
        && (q.active.None? <==> p.active.None? || p.active.value.session != event.session
                                || p.active.value.target != event.target))
      && (event.Rejected? || event.Closed? ==>
        next.ui == Over && q.active.None? && q.pending.None? && q.selected == 0)
  {
  }

  /**
   An accepted choice is shown until its ticks make a second; then the waiting line is shown, if there is
   one, with the first choice selected.
   */
  lemma TickTells(c: Client, elapsed: nat, reg: Registry)
    ensures var next := Take(c, Ticked(elapsed), reg); var p, q := c.p, next.p;
      && next.ui == c.ui
      && (p.accepted.None? ==> q == p)
      && (p.accepted.Some? && p.accepted.value.elapsed + elapsed < 1_000_000_000 ==>
        && q.active == p.active && q.pending == p.pending && q.selected == p.selected && q.revision == p.revision
        && q.accepted == Some(Accepted(p.accepted.value.session, p.accepted.value.text,
             p.accepted.value.elapsed + elapsed)))
      && (p.accepted.Some? && p.accepted.value.elapsed + elapsed >= 1_000_000_000 ==>
        && q.accepted.None? && q.pending.None?
        && if p.pending.Some? then Shows(p, q, p.pending.value) && q.selected == 0
           else q.active == p.active && q.selected == p.selected && q.revision == p.revision)
  {
  }

  /** Only the selection. */
  predicate OnlySelects(before: Projection, after: Projection, selected: nat) {
    && after.selected == selected && after.active == before.active && after.pending == before.pending
    && after.accepted == before.accepted && after.revision == before.revision
  }

  /** Picking selects an offered choice; moving goes to the neighbour, around the ends; neither does more. */
  lemma SelectionTells(c: Client, index: nat, direction: int, reg: Registry, choices: seq<string>)
    requires Written(c.p, reg, choices)
    ensures var p, picked, moved := c.p, Take(c, Picked(index), reg), Take(c, Moved(direction), reg);
      && picked.ui == c.ui && moved.ui == c.ui
      && OnlySelects(p, picked.p, if p.accepted.None? && index < |choices| then index else p.selected)
      && (p.accepted.Some? || choices == [] ==> moved.p == p)
      && (p.accepted.None? && p.selected < |choices| ==>
        OnlySelects(p, moved.p,
          if direction < 0 then (if p.selected == 0 then |choices| - 1 else p.selected - 1)
          else if p.selected == |choices| - 1 then 0 else p.selected + 1))
  {
    var s, n := c.p.selected, |choices|;
    if s < n { Around(s, n); }
  }

  lemma Small(a: nat, n: nat)
    requires a < n
    ensures a % n == a
  {
  }

  lemma Past(a: nat, n: nat)
    requires 0 < n <= a < 2 * n
    ensures a % n == a - n
  {
    var q := a / n;
    Times(2, q, n);
    Times(q, 0, n);
  }

  lemma Times(p: nat, q: nat, n: nat)
    ensures p <= q ==> p * n <= q * n
  {
  }

  lemma Around(s: nat, n: nat)
    requires s < n
    ensures (s + n - 1) % n == if s == 0 then n - 1 else s - 1
    ensures (s + 1) % n == if s == n - 1 then 0 else s + 1
  {
    if s == 0 { Small(n - 1, n); } else { Past(s + n - 1, n); }
    if s == n - 1 { Past(n, n); } else { Small(s + 1, n); }
  }

  /** Leaving the screen clears everything but the revision; a target out of sight takes its lines along. */
  lemma LeavingTells(c: Client, present: set<nat>, reg: Registry)
    ensures Take(c, ScreenChanged, reg) == Client(Projection(None, None, 0, None, c.p.revision), NoInteraction)
    ensures var seen := Take(c, WorldSeen(present), reg);
      && seen.ui == c.ui && SameChoice(c.p, seen.p) && seen.p.revision == c.p.revision
      && if c.p.active.Some? && c.p.active.value.target !in present then seen.p.active.None? && seen.p.pending.None?
         else seen.p == c.p
  {
  }

  /** What is offered, and what confirming sends. */
  lemma OfferTells(p: Projection, reg: Registry, choices: seq<string>)
    ensures Choices(p, reg) == Some(choices) <==> Offered(p, reg, choices)
    ensures Offered(p, reg, choices) ==>
      ChoiceRequest(p, reg) ==
        if p.selected < |choices| then Some((p.active.value.session, p.active.value.beat, p.selected)) else None
    ensures p.accepted.Some? || p.active.None? ==> ChoiceRequest(p, reg).None?
  {
  }

  // Where what is shown comes from.

  lemma {:induction false} TakeLast(c: Client, events: seq<Event>, e: Event, reg: Registry)
    ensures TakeAll(c, events + [e], reg) == Take(TakeAll(c, events, reg), e, reg)
    decreases |events|
  {
    if events == [] {
      assert TakeAll(c, [e], reg) == TakeAll(Take(c, e, reg), [e][1..], reg);
      assert [] + [e] == [e];
    } else {
      assert (events + [e])[1..] == events[1..] + [e];
      TakeLast(Take(c, events[0], reg), events[1..], e, reg);
    }
  }

  lemma {:induction false} TimeLast(events: seq<Event>, e: Event)
    ensures Time(events + [e]) == Time(events) + (if e.Ticked? then e.elapsed else 0)
  {
    if events != [] {
      assert (events + [e])[1..] == events[1..] + [e];
      TimeLast(events[1..], e);
    }
  }

  /** Events that end, replace or begin an interaction. */
  predicate Turns(e: Event) { e.Interacted? || e.ScreenChanged? || e.OpenBegun? || e.CloseBegun? }

  /** Before the `n`-th event the interaction was opened or went on by the `m`-th, and nothing turned it since. */
  predicate OpenedBy(events: seq<Event>, m: nat, n: nat, session: nat, target: nat) {
    && m < n <= |events|
    && (events[m] == Interacted(Opened(session, target)) || events[m] == Interacted(Updated(session, target)))
    && forall k :: m < k < n ==> !Turns(events[k])
  }

  /** The interaction is open exactly when its opening is the last turn of the run. */
  lemma {:induction false} OpenIsOpened(events: seq<Event>, reg: Registry, session: nat, target: nat)
    ensures TakeAll(START, events, reg).ui == Active(session, target) <==>
      exists m: nat :: OpenedBy(events, m, |events|, session, target)
    decreases |events|
  {
    if events != [] {
      var n := |events| - 1;
      var before, e := events[..n], events[n];
      assert events == before + [e];
      TakeLast(START, before, e, reg);
      OpenIsOpened(before, reg, session, target);
      if Turns(e) {
        if m: nat :| OpenedBy(events, m, |events|, session, target) { assert m == n; }
        if e == Interacted(Opened(session, target)) || e == Interacted(Updated(session, target)) {
          assert OpenedBy(events, n, |events|, session, target);
        }
      } else {
        forall m: nat ensures OpenedBy(events, m, |events|, session, target) <==>
          OpenedBy(before, m, n, session, target) {
          OpenedLonger(events, m, n, session, target);
        }
      }
    }
  }

  lemma OpenedLonger(events: seq<Event>, m: nat, n: nat, session: nat, target: nat)
    requires |events| == n + 1 && !Turns(events[n])
    ensures OpenedBy(events, m, n + 1, session, target) <==> OpenedBy(events[..n], m, n, session, target)
  {
    if OpenedBy(events[..n], m, n, session, target) {
      forall k | m < k < n + 1 ensures !Turns(events[k]) {
        if k < n { assert events[k] == events[..n][k]; }
      }
    }
    if OpenedBy(events, m, n + 1, session, target) {
      assert m != n;
      forall k | m < k < n ensures !Turns(events[..n][k]) { assert events[k] == events[..n][k]; }
    }
  }

  /** The `n`-th event brought the line, in the interaction that was open then. */
  ghost predicate Sent(events: seq<Event>, line: Line, n: nat) {
    && n < |events| && events[n] == LineCame(line)
    && exists m: nat :: OpenedBy(events, m, n, line.session, line.target)
  }

  ghost predicate WasSent(events: seq<Event>, line: Line, reg: Registry) {
    Authored(reg, line) && exists n: nat :: Sent(events, line, n)
  }

  lemma SentLonger(events: seq<Event>, e: Event, line: Line, reg: Registry)
    requires WasSent(events, line, reg)
    ensures WasSent(events + [e], line, reg)
  {
    var n: nat :| Sent(events, line, n);
    var m: nat :| OpenedBy(events, m, n, line.session, line.target);
    assert OpenedBy(events + [e], m, n, line.session, line.target);
    assert Sent(events + [e], line, n);
  }

  lemma JustSent(events: seq<Event>, line: Line, reg: Registry)
    requires TakeAll(START, events, reg).ui == Active(line.session, line.target) && Authored(reg, line)
    ensures WasSent(events + [LineCame(line)], line, reg)
  {
    OpenIsOpened(events, reg, line.session, line.target);
    var m: nat :| OpenedBy(events, m, |events|, line.session, line.target);
    var all := events + [LineCame(line)];
    assert OpenedBy(all, m, |events|, line.session, line.target);
    assert Sent(all, line, |events|);
  }

  /** Whatever is shown or waits is an authored line that came in the run while its own interaction was open. */
  lemma {:induction false} ShownWasSent(events: seq<Event>, reg: Registry)
    ensures var p := TakeAll(START, events, reg).p;
      && (p.active.Some? ==> WasSent(events, p.active.value, reg))
      && (p.pending.Some? ==> WasSent(events, p.pending.value, reg))
    decreases |events|
  {
    if events != [] {
      var before, e := events[..|events| - 1], events[|events| - 1];
      assert events == before + [e];
      var c := TakeAll(START, before, reg);
      TakeLast(START, before, e, reg);
      ShownWasSent(before, reg);
      if c.p.active.Some? { SentLonger(before, e, c.p.active.value, reg); }
      if c.p.pending.Some? { SentLonger(before, e, c.p.pending.value, reg); }
      if e.LineCame? && c.ui == Active(e.line.session, e.line.target) && Authored(reg, e.line) {
        JustSent(before, e.line, reg);
      }
      ShownBefore(c, e, reg);
    }
  }

  /** A step shows or keeps waiting what it did before, or the line that comes. */
  lemma ShownBefore(c: Client, e: Event, reg: Registry)
    ensures var q := Take(c, e, reg).p;
      && (q.active.Some? ==> q.active == c.p.active || q.active == c.p.pending || Comes(c, e, reg, q.active.value))
      && (q.pending.Some? ==> q.pending == c.p.pending || Comes(c, e, reg, q.pending.value))
  {
  }

  predicate Comes(c: Client, e: Event, reg: Registry, line: Line) {
    e == LineCame(line) && c.ui == Active(line.session, line.target) && Authored(reg, line)
  }

  /**
   The `n`-th event accepted the choice: the line shown then is of the session and beat named, the text is
   the one written for that choice there, and it has been shown for the ticks since, on the same screen.
   */
  ghost predicate ChosenBy(events: seq<Event>, n: nat, reg: Registry, a: Accepted) {
    && n < |events| && events[n].ChoiceTaken? && events[n].session == a.session
    && (var p := TakeAll(START, events[..n], reg).p;
        && p.active.Some? && p.active.value.session == a.session && p.active.value.beat == events[n].beat
        && p.active.value.npc in reg && events[n].beat < |reg[p.active.value.npc]|
        && events[n].choice < |reg[p.active.value.npc][events[n].beat].choices|
        && a.text == reg[p.active.value.npc][events[n].beat].choices[events[n].choice])
    && a.elapsed == Time(events[n + 1..]) < 1_000_000_000
    && ScreenChanged !in events[n + 1..]
  }

  lemma ChosenLonger(events: seq<Event>, n: nat, e: Event, reg: Registry, a: Accepted)
    requires ChosenBy(events, n, reg, a) && e != ScreenChanged
    requires a.elapsed + (if e.Ticked? then e.elapsed else 0) < 1_000_000_000
    ensures ChosenBy(events + [e], n, reg, Accepted(a.session, a.text, a.elapsed + if e.Ticked? then e.elapsed else 0))
  {
    assert (events + [e])[..n] == events[..n] && (events + [e])[n + 1..] == events[n + 1..] + [e];
    TimeLast(events[n + 1..], e);
  }

  lemma JustChosen(events: seq<Event>, e: Event, reg: Registry, a: Accepted)
    requires var c := TakeAll(START, events, reg);
      e.ChoiceTaken? && Take(c, e, reg).p.accepted == Some(a) && ApplyChoiceAccepted(c.p, e.session, e.beat, e.choice,
        reg).1 == Fine
    ensures ChosenBy(events + [e], |events|, reg, a)
  {
    var all := events + [e];
    assert all[..|events|] == events && all[|events| + 1..] == [];
  }

  /**
   The accepted choice on show was accepted in the run: its text is the one written for it, its age the
   ticks since.
   */
  lemma {:induction false} AcceptedWasChosen(events: seq<Event>, reg: Registry)
    ensures var p := TakeAll(START, events, reg).p;
      p.accepted.Some? ==> exists n: nat :: ChosenBy(events, n, reg, p.accepted.value)
    decreases |events|
  {
    if events != [] {
      var before, e := events[..|events| - 1], events[|events| - 1];
      assert events == before + [e];
      var c := TakeAll(START, before, reg);
      TakeLast(START, before, e, reg);
      AcceptedWasChosen(before, reg);
      var q := Take(c, e, reg).p;
      if q.accepted.Some? {
        if e.ChoiceTaken? && ApplyChoiceAccepted(c.p, e.session, e.beat, e.choice, reg).1 == Fine {
          JustChosen(before, e, reg, q.accepted.value);
          assert ChosenBy(events, |before|, reg, q.accepted.value);
        } else {
          AcceptedAges(c, e, reg);
          var n: nat :| ChosenBy(before, n, reg, c.p.accepted.value);
          ChosenLonger(before, n, e, reg, c.p.accepted.value);
          assert ChosenBy(events, n, reg, q.accepted.value);
        }
      }
    }
  }

  /** An accepted choice that a step neither sets nor ends has only got older. */
  lemma AcceptedAges(c: Client, e: Event, reg: Registry)
    requires Take(c, e, reg).p.accepted.Some?
    requires e.ChoiceTaken? ==> ApplyChoiceAccepted(c.p, e.session, e.beat, e.choice, reg).1 != Fine
    ensures c.p.accepted.Some? && e != ScreenChanged
    ensures var a, b, t := c.p.accepted.value, Take(c, e, reg).p.accepted.value, if e.Ticked? then e.elapsed else 0;
      && b == Accepted(a.session, a.text, a.elapsed + t)
      && (a.elapsed < 1_000_000_000 ==> b.elapsed < 1_000_000_000)
  {
  }
}
