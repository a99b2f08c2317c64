/**
 Any number of clients open and save documents through the locked handlers of the Item Lab and the Mob
 Lab. Steps of different clients interleave freely, one file step at a time; the process that holds the
 catalog lock may die at any step, which releases the lock.
 */
module Editing {
  import opened Basics
  import opened Journal
  import opened JournalSafety
  import opened JournalTheorems
  import opened Revision

  /** A save of an existing document names the revision it was based on; a create names none. */
  datatype Request = Update(expected: Bytes) | Create

  datatype Phase =
    | Recovering(start: Disk, done: nat)
    | Ready
    | Saving(start: Disk, id: string, staged: seq<Staged>, valid: bool, client: nat, doc: seq<Resource>,
      request: Request, done: nat)

  /** What the handlers did, in the order of their effects. */
  datatype Event =
    | ReadBack(client: nat, doc: seq<Resource>, files: map<string, Bytes>)
    | RefusedStale(client: nat, doc: seq<Resource>, request: Request)
    | Committed(client: nat, doc: seq<Resource>, request: Request, before: map<string, Bytes>,
      after: map<string, Bytes>)

  /**
   `holder` is the session that owns the catalog lock. `save` and `committed` record the last save that
   reached the disk and on which side of its commit point it is.
   */
  datatype World = World(disk: Disk, holder: Option<Phase>, log: seq<Event>, save: Save, committed: bool)

  datatype Action =
    | Acquire
    | RecoverStep
    | RecoverEnd
    | Open(client: nat, doc: seq<Resource>)
    | Begin(client: nat, doc: seq<Resource>, request: Request, id: string, writes: seq<Write>, valid: bool)
    | SaveStep
    | SaveEnd
    | Die(junk: Option<Blob>)

  /** The check made under the lock: an update must carry the current revision, a create must find no file. */
  predicate Accepts(files: map<string, Bytes>, doc: seq<Resource>, request: Request) {
    match request
    case Update(expected) => expected == RevisionOf(files, doc)
    case Create => doc != [] && doc[0].path !in files
  }

  ghost predicate Possible(w: World, a: Action) {
    match a
    case Acquire => w.holder.None?
    case RecoverStep =>
      w.holder.Some? && w.holder.value.Recovering? && w.holder.value.done < |Recover(w.holder.value.start).script|
    case RecoverEnd =>
      w.holder.Some? && w.holder.value.Recovering? && w.holder.value.done == |Recover(w.holder.value.start).script|
    case Open(_, doc) => w.holder == Some(Ready)
    case Begin(_, doc, _, _, writes, _) => w.holder == Some(Ready) && Agreeing(StageAll(w.disk.files, writes))
    case SaveStep => w.holder.Some? && w.holder.value.Saving? && w.holder.value.done < |Script(w.holder.value)|
    case SaveEnd => w.holder.Some? && w.holder.value.Saving? && w.holder.value.done == |Script(w.holder.value)|
    case Die(_) => w.holder.Some?
  }

  ghost function Script(p: Phase): seq<Primitive>
    requires !p.Ready?
  {
    match p
    case Recovering(start, _) => Recover(start).script
    case Saving(start, id, staged, valid, _, _, _, _) => SaveScript(start, id, staged, valid)
  }

  /** This step of a save is the replace that makes the manifest say `complete`. */
  ghost predicate IsCommitStep(p: Phase)
    requires p.Saving?
  {
    p.valid && p.staged != [] && p.done + 1 == |Publish(p.start, p.id, p.staged)| + 2
  }

  /** The same save, one step further. */
  function OneOn(p: Phase): (q: Phase)
    requires p.Saving?
    ensures q.Saving? && q.done == p.done + 1 && q.start == p.start
  {
    Saving(p.start, p.id, p.staged, p.valid, p.client, p.doc, p.request, p.done + 1)
  }

  ghost function Take(w: World, a: Action): World {
    if !Possible(w, a) then w else
    match a
    case Acquire => w.(holder := Some(Recovering(w.disk, 0)))
    case RecoverStep =>
      var p := w.holder.value;
      w.(disk := Step(w.disk, Script(p)[p.done]), holder := Some(Recovering(p.start, p.done + 1)))
    case RecoverEnd =>
      // A refusal (AuthoringRepair) gives the lock back; otherwise the handler goes on.
      w.(holder := if Recover(w.holder.value.start).outcome == Done then Some(Ready) else None)
    case Open(client, doc) =>
      w.(log := w.log + [ReadBack(client, doc, w.disk.files)], holder := None)
    case Begin(client, doc, request, id, writes, valid) =>
      if !Accepts(w.disk.files, doc, request) then
        w.(log := w.log + [RefusedStale(client, doc, request)], holder := None)
      else
        var staged := StageAll(w.disk.files, writes);
        w.(holder := Some(Saving(w.disk, id, staged, valid, client, doc, request, 0)),
           save := Save(id, staged, w.disk.files, w.disk.temps), committed := false)
    case SaveStep =>
      var p := w.holder.value;
      var next := w.(disk := Step(w.disk, Script(p)[p.done]), holder := Some(OneOn(p)));
      if IsCommitStep(p) then
        next.(committed := true,
              log := w.log + [Committed(p.client, p.doc, p.request, p.start.files,
                AfterFiles(p.start.files, p.staged))])
      else next
    case SaveEnd =>
      // The response is read back while the lock is still held.
      var p := w.holder.value;
      w.(log := w.log + [ReadBack(p.client, p.doc, w.disk.files)], holder := None)
    case Die(junk) =>
      var p := w.holder.value;
      var torn := if !p.Ready? && p.done < |Script(p)| && junk.Some?
                  then Torn(w.disk, Script(p)[p.done], junk.value) else w.disk;
      w.(disk := torn, holder := None)
  }

  ghost function TakeAll(w: World, actions: seq<Action>): World
    decreases |actions|
  {
    if actions == [] then w else TakeAll(Take(w, actions[0]), actions[1..])
  }

  function Start(files: map<string, Bytes>): World {
    World(Disk(files, [], false, map[]), None, [], Save("", [], files, []), false)
  }

  // The specification: one atomic store of files.

  /** The log is what a single atomic store, starting at `files` and now at `now`, could have done. */
  ghost predicate Legal(files: map<string, Bytes>, log: seq<Event>, now: map<string, Bytes>)
    decreases |log|
  {
    if log == [] then now == files
    else
      var prefix, last := log[..|log| - 1], log[|log| - 1];
      match last
      case ReadBack(_, doc, seen) => seen == now && Legal(files, prefix, now)
      case RefusedStale(_, doc, request) => !Accepts(now, doc, request) && Legal(files, prefix, now)
      case Committed(_, doc, request, before, after) =>
        after == now && Accepts(before, doc, request) && Legal(files, prefix, before)
  }

  /** The committed files: what the next complete recovery leaves. */
  ghost function Current(w: World): map<string, Bytes> {
    FinalFiles(w.save, w.committed)
  }

  ghost predicate PhaseInv(w: World) {
    match w.holder
    case None => true
    case Some(p) =>
      match p
      case Recovering(start, done) =>
        && done <= |Script(p)| && Consistent(start, w.save, w.committed)
        && w.disk == Crash(start, Script(p), Cut(done, None))
      case Ready => w.disk.journals == map[] && w.disk.files == Current(w)
      case Saving(start, _, staged, _, _, doc, request, done) =>
        InProgress(p, w.disk, w.save, w.committed) && Accepts(start.files, doc, request) && (staged == [] ==> done == 0)
  }

  ghost predicate Inv(files: map<string, Bytes>, w: World) {
    && WellStaged(w.save)
    && Consistent(w.disk, w.save, w.committed)
    && Legal(files, w.log, Current(w))
    && PhaseInv(w)
  }

  // One more step of a script.

  lemma {:induction false} CrashStep(d: Disk, script: seq<Primitive>, done: nat)
    requires done < |script|
    ensures Crash(d, script, Cut(done + 1, None)) == Step(Crash(d, script, Cut(done, None)), script[done])
    decreases |script|
  {
    if done > 0 { CrashStep(Step(d, script[0]), script[1..], done - 1); }
  }

  lemma {:induction false} CrashTorn(d: Disk, script: seq<Primitive>, done: nat, junk: Blob)
    requires done < |script|
    ensures Crash(d, script, Cut(done, Some(junk))) == Torn(Crash(d, script, Cut(done, None)), script[done], junk)
    decreases |script|
  {
    if done > 0 { CrashTorn(Step(d, script[0]), script[1..], done - 1, junk); }
  }

  lemma WellStagedPlan(d: Disk, id: string, writes: seq<Write>)
    requires Agreeing(StageAll(d.files, writes))
    ensures WellStaged(Save(id, StageAll(d.files, writes), d.files, d.temps))
  {
  }

  // The invariant is kept, action by action.

  lemma RecoverStepKeeps(files: map<string, Bytes>, w: World, a: Action)
    requires Inv(files, w) && Possible(w, a) && (a.RecoverStep? || a.RecoverEnd?)
    ensures Inv(files, Take(w, a))
    ensures a.RecoverEnd? ==> Take(w, a).holder == Some(Ready)
  {
    var p := w.holder.value;
    RecoverThroughout(p.start, w.save, w.committed);
    if a.RecoverStep? {
      CrashStep(p.start, Script(p), p.done);
      ThroughoutCrash(p.start, Script(p), w.save, w.committed, Cut(p.done + 1, None));
    } else {
      CrashBeyond(p.start, Script(p), Cut(p.done, None));
    }
  }

  lemma BeginKeeps(files: map<string, Bytes>, w: World, a: Action)
    requires Inv(files, w) && Possible(w, a) && a.Begin?
    ensures Inv(files, Take(w, a))
  {
    if Accepts(w.disk.files, a.doc, a.request) {
      WellStagedPlan(w.disk, a.id, a.writes);
      var staged := StageAll(w.disk.files, a.writes);
      var c := Save(a.id, staged, w.disk.files, w.disk.temps);
      SaveCrashConsistent(w.disk, c, a.valid, Cut(0, None));
      var v := Take(w, a);
      assert Crash(w.disk, Script(v.holder.value), Cut(0, None)) == w.disk;
      assert Consistent(v.disk, v.save, false);
    } else {
      LegalRefused(files, w.log, Current(w), RefusedStale(a.client, a.doc, a.request));
    }
  }

  lemma CommitsStep(p: Phase)
    requires p.Saving?
    ensures Commits(p.start, p.id, p.staged, p.valid, Cut(p.done + 1, None))
      <==> Commits(p.start, p.id, p.staged, p.valid, Cut(p.done, None)) || IsCommitStep(p)
  {
  }

  lemma SaveStepTakes(w: World)
    requires Possible(w, SaveStep)
    ensures var p, v := w.holder.value, Take(w, SaveStep);
      && v.disk == Step(w.disk, Script(p)[p.done]) && v.save == w.save && v.holder == Some(OneOn(p))
      && v.committed == (w.committed || IsCommitStep(p))
  {
  }

  /** A save in progress: the disk is the start with the first `done` steps taken. */
  ghost predicate InProgress(p: Phase, disk: Disk, c: Save, committed: bool)
    requires p.Saving?
  {
    && p.done <= |Script(p)| && p.start.journals == map[] && c == Save(p.id, p.staged, p.start.files, p.start.temps)
    && committed == Commits(p.start, p.id, p.staged, p.valid, Cut(p.done, None))
    && disk == Crash(p.start, Script(p), Cut(p.done, None))
  }

  lemma ProgressStep(p: Phase, disk: Disk, c: Save, committed: bool)
    requires p.Saving? && InProgress(p, disk, c, committed) && p.done < |Script(p)|
    ensures InProgress(OneOn(p), Step(disk, Script(p)[p.done]), c, committed || IsCommitStep(p))
  {
    CrashStep(p.start, Script(p), p.done);
    CommitsStep(p);
  }

  lemma ProgressConsistent(p: Phase, disk: Disk, c: Save, committed: bool)
    requires p.Saving? && InProgress(p, disk, c, committed) && WellStaged(c)
    ensures Consistent(disk, c, committed)
  {
    SaveCrashConsistent(p.start, c, p.valid, Cut(p.done, None));
  }

  lemma SaveStepLog(files: map<string, Bytes>, w: World)
    requires Inv(files, w) && Possible(w, SaveStep)
    ensures Legal(files, Take(w, SaveStep).log, Current(Take(w, SaveStep)))
  {
    var p := w.holder.value;
    if IsCommitStep(p) {
      LegalCommitted(files, w.log,
        Committed(p.client, p.doc, p.request, p.start.files, AfterFiles(p.start.files, p.staged)));
    }
  }

  /** After the step the same save is in progress, one step further; an empty save has no steps. */
  lemma SaveStepProgress(w: World)
    requires Possible(w, SaveStep) && InProgress(w.holder.value, w.disk, w.save, w.committed)
    ensures var p, v := w.holder.value, Take(w, SaveStep);
      && v.holder == Some(OneOn(p)) && v.save == w.save && p.staged != []
      && InProgress(OneOn(p), v.disk, v.save, v.committed)
  {
    SaveStepTakes(w);
    ProgressStep(w.holder.value, w.disk, w.save, w.committed);
  }

  lemma SaveStepKeeps(files: map<string, Bytes>, w: World)
    requires Inv(files, w) && Possible(w, SaveStep)
    ensures Inv(files, Take(w, SaveStep))
  {
    var p, v := w.holder.value, Take(w, SaveStep);
    SaveStepProgress(w);
    SaveStepLog(files, w);
    ProgressConsistent(OneOn(p), v.disk, v.save, v.committed);
  }

  lemma LegalRefused(files: map<string, Bytes>, log: seq<Event>, now: map<string, Bytes>, event: Event)
    requires Legal(files, log, now)
    requires (event.RefusedStale? && !Accepts(now, event.doc, event.request)) || (event.ReadBack? && event.files == now)
    ensures Legal(files, log + [event], now)
  {
    assert (log + [event])[..|log|] == log;
  }

  lemma LegalCommitted(files: map<string, Bytes>, log: seq<Event>, event: Event)
    requires event.Committed? && Legal(files, log, event.before) && Accepts(event.before, event.doc, event.request)
    ensures Legal(files, log + [event], event.after)
  {
    assert (log + [event])[..|log|] == log;
  }

  lemma SaveEndKeeps(files: map<string, Bytes>, w: World)
    requires Inv(files, w) && Possible(w, SaveEnd)
    ensures Inv(files, Take(w, SaveEnd))
  {
    var p := w.holder.value;
    CrashBeyond(p.start, Script(p), Cut(p.done, None));
    UninterruptedSave(p.start, p.id, p.staged, p.valid);
    if p.staged == [] {
      assert w.disk.files == p.start.files;
    } else if p.valid {
      CommitReached(p);
    }
    LegalRefused(files, w.log, Current(w), ReadBack(p.client, p.doc, w.disk.files));
  }

  lemma CommitReached(p: Phase)
    requires p.Saving? && p.valid && p.staged != []
    ensures |Script(p)| >= |Publish(p.start, p.id, p.staged)| + 2
  {
  }

  lemma DieKeeps(files: map<string, Bytes>, w: World, junk: Option<Blob>)
    requires Inv(files, w) && Possible(w, Die(junk))
    ensures Inv(files, Take(w, Die(junk)))
  {
    var p := w.holder.value;
    if !p.Ready? && p.done < |Script(p)| && junk.Some? {
      CrashTorn(p.start, Script(p), p.done, junk.value);
      if p.Recovering? {
        RecoverThroughout(p.start, w.save, w.committed);
        ThroughoutCrash(p.start, Script(p), w.save, w.committed, Cut(p.done, junk));
      } else {
        SaveCrashConsistent(p.start, w.save, p.valid, Cut(p.done, junk));
      }
    }
  }

  lemma TakeKeeps(files: map<string, Bytes>, w: World, a: Action)
    requires Inv(files, w)
    ensures Inv(files, Take(w, a))
  {
    if Possible(w, a) {
      match a
      case Acquire => assert Crash(w.disk, Recover(w.disk).script, Cut(0, None)) == w.disk;
      case RecoverStep => RecoverStepKeeps(files, w, a);
      case RecoverEnd => RecoverStepKeeps(files, w, a);
      case Open(client, doc) => LegalRefused(files, w.log, Current(w), ReadBack(client, doc, w.disk.files));
      case Begin(_, _, _, _, _, _) => BeginKeeps(files, w, a);
      case SaveStep => SaveStepKeeps(files, w);
      case SaveEnd => SaveEndKeeps(files, w);
      case Die(junk) => DieKeeps(files, w, junk);
    }
  }

  lemma {:induction false} TakeAllKeeps(files: map<string, Bytes>, w: World, actions: seq<Action>)
    requires Inv(files, w)
    ensures Inv(files, TakeAll(w, actions))
    decreases |actions|
  {
    if actions != [] {
      TakeKeeps(files, w, actions[0]);
      TakeAllKeeps(files, Take(w, actions[0]), actions[1..]);
    }
  }

  lemma StartInv(files: map<string, Bytes>)
    ensures Inv(files, Start(files))
  {
    UnwrittenIsMixed(Start(files).save);
  }

  // The results.

  /**
   Serializable editing. In every interleaving of every client, with crashes at any file steps, what the
   handlers did is what one atomic store would have done in the order of their effects.
   */
  lemma Serializable(files: map<string, Bytes>, actions: seq<Action>)
    ensures var w := TakeAll(Start(files), actions); Legal(files, w.log, Current(w))
  {
    StartInv(files);
    TakeAllKeeps(files, Start(files), actions);
  }

  /** In every reachable world the next complete recovery succeeds and leaves exactly the committed files. */
  lemma RecoveryGivesCommitted(files: map<string, Bytes>, actions: seq<Action>)
    ensures var w := TakeAll(Start(files), actions);
      Recover(w.disk).outcome == Done && Run(w.disk, Recover(w.disk).script).files == Current(w)
  {
    StartInv(files);
    TakeAllKeeps(files, Start(files), actions);
    var w := TakeAll(Start(files), actions);
    RecoverThroughout(w.disk, w.save, w.committed);
  }

  /** Recovery under the lock never answers with a repair request. */
  lemma NeverNeedsRepair(files: map<string, Bytes>, actions: seq<Action>)
    ensures var w := TakeAll(Start(files), actions);
      Possible(w, RecoverEnd) ==> Take(w, RecoverEnd).holder == Some(Ready)
  {
    StartInv(files);
    TakeAllKeeps(files, Start(files), actions);
    var w := TakeAll(Start(files), actions);
    if Possible(w, RecoverEnd) { RecoverStepKeeps(files, w, RecoverEnd); }
  }

  // What the log says, told without the check.

  /** The files of the store just before the `i`-th event: those that the last commit before it left. */
  function FilesAt(files: map<string, Bytes>, log: seq<Event>, i: nat): map<string, Bytes>
    requires i <= |log|
  {
    if i == 0 then files
    else if log[i - 1].Committed? then log[i - 1].after
    else FilesAt(files, log, i - 1)
  }

  /**
   The event, in the store it met. A create commits only where the document's first file is absent and is refused
   only where it is present; an update commits only with the current revision and is refused only without it.
   */
  predicate TrueEvent(now: map<string, Bytes>, e: Event) {
    match e
    case ReadBack(_, _, seen) => seen == now
    case RefusedStale(_, doc, Create) => doc == [] || doc[0].path in now
    case RefusedStale(_, doc, Update(expected)) => expected != RevisionOf(now, doc)
    case Committed(_, doc, Create, before, _) => before == now && doc != [] && doc[0].path !in now
    case Committed(_, doc, Update(expected), before, _) => before == now && expected == RevisionOf(now, doc)
  }

  lemma {:induction false} FilesAtPrefix(files: map<string, Bytes>, log: seq<Event>, m: nat, i: nat)
    requires i <= m <= |log|
    ensures FilesAt(files, log[..m], i) == FilesAt(files, log, i)
  {
    if i > 0 { FilesAtPrefix(files, log, m, i - 1); }
  }

  lemma {:induction false} LegalTells(files: map<string, Bytes>, log: seq<Event>, now: map<string, Bytes>)
    requires Legal(files, log, now)
    ensures FilesAt(files, log, |log|) == now
    ensures forall i :: 0 <= i < |log| ==> TrueEvent(FilesAt(files, log, i), log[i])
    decreases |log|
  {
    if log != [] {
      var n := |log| - 1;
      var before := if log[n].Committed? then log[n].before else now;
      LegalTells(files, log[..n], before);
      forall i | 0 <= i < |log| ensures TrueEvent(FilesAt(files, log, i), log[i]) {
        FilesAtPrefix(files, log, n, i);
      }
      FilesAtPrefix(files, log, n, n);
    }
  }

  /** Every event of every run is true of the store it met, and the store is what the last commit left. */
  lemma LogTells(files: map<string, Bytes>, actions: seq<Action>)
    ensures var w := TakeAll(Start(files), actions);
      && FilesAt(files, w.log, |w.log|) == Current(w)
      && forall i :: 0 <= i < |w.log| ==> TrueEvent(FilesAt(files, w.log, i), w.log[i])
  {
    Serializable(files, actions);
    var w := TakeAll(Start(files), actions);
    LegalTells(files, w.log, Current(w));
  }

  /** What the store holds at each path after a commit: what one of the writes put there, or what was there. */
  ghost predicate Writes(writes: seq<Write>, before: map<string, Bytes>, after: map<string, Bytes>) {
    && (forall k :: 0 <= k < |writes| ==> Lookup(after, writes[k].path) == writes[k].payload)
    && (forall path :: (forall k :: 0 <= k < |writes| ==> writes[k].path != path) ==>
          Lookup(after, path) == Lookup(before, path))
  }

  /** Somebody asked for what the event reports, and a commit wrote exactly what it was asked to write. */
  ghost predicate Asked(all: seq<Action>, e: Event) {
    match e
    case ReadBack(client, doc, _) =>
      exists a :: a in all && (a.Open? || a.Begin?) && a.client == client && a.doc == doc
    case RefusedStale(client, doc, request) =>
      exists a :: a in all && a.Begin? && a.client == client && a.doc == doc && a.request == request
    case Committed(client, doc, request, before, after) =>
      exists a :: a in all && a.Begin? && a.client == client && a.doc == doc && a.request == request
        && a.valid && Writes(a.writes, before, after)
  }

  ghost predicate AllAsked(all: seq<Action>, log: seq<Event>) { forall i :: 0 <= i < |log| ==> Asked(all, log[i]) }

  /** A save in progress is one that was asked for. */
  ghost predicate Begun(all: seq<Action>, w: World) {
    w.holder.Some? && w.holder.value.Saving? ==>
      var p := w.holder.value;
      exists a :: a in all && a.Begin? && a.client == p.client && a.doc == p.doc && a.request == p.request
        && a.valid == p.valid && p.staged == StageAll(p.start.files, a.writes) && Agreeing(p.staged)
  }

  lemma StagedAreWritten(before: map<string, Bytes>, writes: seq<Write>)
    requires Agreeing(StageAll(before, writes))
    ensures Writes(writes, before, AfterFiles(before, StageAll(before, writes)))
  {
    var staged := StageAll(before, writes);
    forall k | 0 <= k < |writes| ensures Lookup(AfterFiles(before, staged), writes[k].path) == writes[k].payload {
      AfterFilesLookup(before, staged, writes[k].path);
      assert staged[k].path == writes[k].path;
    }
    forall path | forall k :: 0 <= k < |writes| ==> writes[k].path != path
      ensures Lookup(AfterFiles(before, staged), path) == Lookup(before, path)
    {
      AfterFilesLookup(before, staged, path);
    }
  }

  lemma CommitWasAsked(all: seq<Action>, w: World)
    requires Begun(all, w) && Possible(w, SaveStep) && IsCommitStep(w.holder.value)
    ensures var p := w.holder.value;
      Asked(all, Committed(p.client, p.doc, p.request, p.start.files, AfterFiles(p.start.files, p.staged)))
  {
    var p := w.holder.value;
    var a :| a in all && a.Begin? && a.client == p.client && a.doc == p.doc && a.request == p.request
      && a.valid == p.valid && p.staged == StageAll(p.start.files, a.writes) && Agreeing(p.staged);
    StagedAreWritten(p.start.files, a.writes);
  }

  lemma TakeKeepsAsked(all: seq<Action>, w: World, a: Action)
    requires a in all && Begun(all, w) && AllAsked(all, w.log)
    ensures Begun(all, Take(w, a)) && AllAsked(all, Take(w, a).log)
  {
    if Possible(w, a) {
      match a
      case Open(client, doc) => assert Asked(all, ReadBack(client, doc, w.disk.files));
      case Begin(client, doc, request, _, _, _) => assert Asked(all, RefusedStale(client, doc, request));
      case SaveStep => if IsCommitStep(w.holder.value) { CommitWasAsked(all, w); }
      case SaveEnd =>
        var p := w.holder.value;
        assert Asked(all, ReadBack(p.client, p.doc, w.disk.files));
      case _ =>
    }
  }

  lemma {:induction false} TakeAllKeepsAsked(all: seq<Action>, w: World, actions: seq<Action>)
    requires (forall a :: a in actions ==> a in all) && Begun(all, w) && AllAsked(all, w.log)
    ensures AllAsked(all, TakeAll(w, actions).log)
    decreases |actions|
  {
    if actions != [] {
      TakeKeepsAsked(all, w, actions[0]);
      TakeAllKeepsAsked(all, Take(w, actions[0]), actions[1..]);
    }
  }

  /** Nothing is done that nobody asked for, and a commit writes what its request asked to write and nothing else. */
  lemma EverythingWasAsked(files: map<string, Bytes>, actions: seq<Action>)
    ensures AllAsked(actions, TakeAll(Start(files), actions).log)
  {
    TakeAllKeepsAsked(actions, Start(files), actions);
  }

  // A request that may go through does.

  function Steps(k: nat): seq<Action> { seq(k, i => SaveStep) }

  /** The save `k` steps further. */
  function Ahead(p: Phase, k: nat): Phase
    requires p.Saving?
  {
    Saving(p.start, p.id, p.staged, p.valid, p.client, p.doc, p.request, p.done + k)
  }

  function CommitOf(p: Phase): Event
    requires p.Saving?
  {
    Committed(p.client, p.doc, p.request, p.start.files, AfterFiles(p.start.files, p.staged))
  }

  /** The commit step is among the next `k`. */
  ghost predicate CommitsWithin(p: Phase, k: nat)
    requires p.Saving?
  {
    p.valid && p.staged != [] && p.done < |Publish(p.start, p.id, p.staged)| + 2 <= p.done + k
  }

  lemma OneRuns(w: World)
    requires w.holder.Some? && w.holder.value.Saving? && w.holder.value.done < |Script(w.holder.value)|
    ensures var p, next := w.holder.value, Take(w, SaveStep);
      next.holder == Some(Ahead(p, 1)) && next.log == w.log + if CommitsWithin(p, 1) then [CommitOf(p)] else []
  {
  }

  lemma {:induction false} SaveRuns(w: World, k: nat)
    requires w.holder.Some? && w.holder.value.Saving? && w.holder.value.done + k <= |Script(w.holder.value)|
    ensures var p, v := w.holder.value, TakeAll(w, Steps(k));
      && v.holder == Some(Ahead(p, k))
      && v.log == w.log + if CommitsWithin(p, k) then [CommitOf(p)] else []
    decreases k
  {
    if k > 0 {
      var p, next := w.holder.value, Take(w, SaveStep);
      assert Steps(k)[0] == SaveStep && Steps(k)[1..] == Steps(k - 1);
      OneRuns(w);
      SaveRuns(next, k - 1);
      CommitsOnce(p, k);
    }
  }

  /** The commit is the next step or among those after it, not both. */
  lemma CommitsOnce(p: Phase, k: nat)
    requires p.Saving? && k > 0
    ensures Ahead(Ahead(p, 1), k - 1) == Ahead(p, k) && CommitOf(Ahead(p, 1)) == CommitOf(p)
    ensures CommitsWithin(p, k) <==> CommitsWithin(p, 1) || CommitsWithin(Ahead(p, 1), k - 1)
    ensures !(CommitsWithin(p, 1) && CommitsWithin(Ahead(p, 1), k - 1))
  {
  }

  lemma {:induction false} TakeAllConcat(w: World, a: seq<Action>, b: seq<Action>)
    ensures TakeAll(w, a + b) == TakeAll(TakeAll(w, a), b)
    decreases |a|
  {
    if a == [] {
      assert a + b == b;
    } else {
      assert (a + b)[0] == a[0] && (a + b)[1..] == a[1..] + b;
      TakeAllConcat(Take(w, a[0]), a[1..], b);
    }
  }

  /**
   Under the lock, a create whose first file is absent and an update with the current revision go through: when the
   pack is valid and the process lives on, exactly the commit and the answer are logged, and the lock is free.
   */
  lemma GoodRequestCommits(w: World, a: Action)
    requires w.holder == Some(Ready) && a.Begin? && a.valid && a.writes != []
    requires Agreeing(StageAll(w.disk.files, a.writes))
    requires match a.request
      case Create => a.doc != [] && a.doc[0].path !in w.disk.files
      case Update(expected) => expected == RevisionOf(w.disk.files, a.doc)
    ensures var staged := StageAll(w.disk.files, a.writes);
      var v := TakeAll(w, [a] + Steps(|SaveScript(w.disk, a.id, staged, true)|) + [SaveEnd]);
      && v.holder == None
      && v.log == w.log + [Committed(a.client, a.doc, a.request, w.disk.files, AfterFiles(w.disk.files, staged)),
                           ReadBack(a.client, a.doc, v.disk.files)]
  {
    var staged := StageAll(w.disk.files, a.writes);
    var n := |SaveScript(w.disk, a.id, staged, true)|;
    var begun := Take(w, a);
    var p := Saving(w.disk, a.id, staged, true, a.client, a.doc, a.request, 0);
    assert begun.holder == Some(p) && begun.log == w.log;
    CommitReached(p);
    SaveRuns(begun, n);
    FirstThenEnd(w, a, n);
    EndsWith(TakeAll(begun, Steps(n)));
  }

  lemma FirstThenEnd(w: World, a: Action, n: nat)
    ensures TakeAll(w, [a] + Steps(n) + [SaveEnd]) == TakeAll(TakeAll(Take(w, a), Steps(n)), [SaveEnd])
  {
    TakeAllConcat(w, [a], Steps(n));
    TakeAllConcat(w, [a] + Steps(n), [SaveEnd]);
    assert TakeAll(w, [a]) == TakeAll(Take(w, a), [a][1..]) == Take(w, a);
  }

  lemma EndsWith(w: World)
    requires Possible(w, SaveEnd)
    ensures TakeAll(w, [SaveEnd]) == Take(w, SaveEnd)
  {
    assert [SaveEnd][1..] == [];
  }

  /** Any other request is refused at once, and nothing is written. */
  lemma BadRequestIsRefused(w: World, a: Action)
    requires w.holder == Some(Ready) && a.Begin? && Agreeing(StageAll(w.disk.files, a.writes))
    requires match a.request
      case Create => a.doc == [] || a.doc[0].path in w.disk.files
      case Update(expected) => expected != RevisionOf(w.disk.files, a.doc)
    ensures var v := Take(w, a);
      v.disk == w.disk && v.holder == None && v.log == w.log + [RefusedStale(a.client, a.doc, a.request)]
  {
  }

  // No lost update.

  /** The files at `texts` that exist are JSON texts. Other files (code, images) may hold anything. */
  ghost predicate AllJson(files: map<string, Bytes>, texts: set<string>) {
    forall path :: path in texts && path in files ==> JsonLike(files[path])
  }

  /** Plans write JSON to the files at `texts`. */
  ghost predicate PlansJson(a: Action, texts: set<string>) {
    a.Begin? ==> forall i :: 0 <= i < |a.writes| && a.writes[i].path in texts && a.writes[i].payload.Some? ==>
      JsonLike(a.writes[i].payload.value)
  }

  ghost predicate JsonEvent(event: Event, texts: set<string>) {
    match event
    case ReadBack(_, _, files) => AllJson(files, texts)
    case RefusedStale(_, _, _) => true
    case Committed(_, _, _, before, after) => AllJson(before, texts) && AllJson(after, texts)
  }

  ghost predicate JsonLog(log: seq<Event>, texts: set<string>) {
    forall i :: 0 <= i < |log| ==> JsonEvent(log[i], texts)
  }

  ghost predicate JsonWorld(w: World, texts: set<string>) {
    AllJson(w.save.files, texts) && JsonLog(w.log, texts) && JsonStaged(w.save.staged, texts)
  }

  ghost predicate JsonStaged(staged: seq<Staged>, texts: set<string>) {
    forall i :: 0 <= i < |staged| && staged[i].path in texts && staged[i].after.Some? ==>
      JsonLike(staged[i].after.value)
  }

  lemma {:induction false} AfterFilesJson(files: map<string, Bytes>, staged: seq<Staged>, texts: set<string>)
    requires AllJson(files, texts) && JsonStaged(staged, texts)
    ensures AllJson(AfterFiles(files, staged), texts)
  {
    if staged != [] { AfterFilesJson(files, staged[..|staged| - 1], texts); }
  }

  lemma StagedJson(files: map<string, Bytes>, a: Action, texts: set<string>)
    requires a.Begin? && PlansJson(a, texts)
    ensures JsonStaged(StageAll(files, a.writes), texts)
  {
  }

  /** What one action adds to the log: nothing, or one event over JSON files. */
  lemma LoggedJson(files: map<string, Bytes>, w: World, a: Action, texts: set<string>)
    requires Inv(files, w) && JsonWorld(w, texts)
    ensures Take(w, a).log == w.log || exists e :: JsonEvent(e, texts) && Take(w, a).log == w.log + [e]
  {
    AfterFilesJson(w.save.files, w.save.staged, texts);
    assert AllJson(Current(w), texts);
    if Possible(w, a) {
      if a.Open? {
        assert JsonEvent(ReadBack(a.client, a.doc, w.disk.files), texts);
      } else if a.Begin? {
        assert JsonEvent(RefusedStale(a.client, a.doc, a.request), texts);
      } else if a.SaveStep? {
        var p := w.holder.value;
        assert JsonEvent(Committed(p.client, p.doc, p.request, p.start.files, AfterFiles(p.start.files, p.staged)),
          texts);
      } else if a.SaveEnd? {
        var p := w.holder.value;
        SaveEndKeeps(files, w);
        EndReads(files, Take(w, a));
        assert JsonEvent(ReadBack(p.client, p.doc, w.disk.files), texts);
      }
    }
  }

  lemma EndReads(files: map<string, Bytes>, w: World)
    requires Inv(files, w) && w.log != [] && w.log[|w.log| - 1].ReadBack?
    ensures w.log[|w.log| - 1].files == Current(w)
  {
  }

  lemma TakeKeepsJson(files: map<string, Bytes>, w: World, a: Action, texts: set<string>)
    requires Inv(files, w) && JsonWorld(w, texts) && PlansJson(a, texts)
    ensures JsonWorld(Take(w, a), texts)
  {
    LoggedJson(files, w, a, texts);
    if Possible(w, a) && a.Begin? { StagedJson(w.disk.files, a, texts); }
    AfterFilesJson(w.save.files, w.save.staged, texts);
  }

  lemma {:induction false} TakeAllKeepsJson(files: map<string, Bytes>, w: World, actions: seq<Action>,
      texts: set<string>)
    requires Inv(files, w) && JsonWorld(w, texts) && forall a :: a in actions ==> PlansJson(a, texts)
    ensures JsonWorld(TakeAll(w, actions), texts)
    decreases |actions|
  {
    if actions != [] {
      TakeKeeps(files, w, actions[0]);
      TakeKeepsJson(files, w, actions[0], texts);
      TakeAllKeepsJson(files, Take(w, actions[0]), actions[1..], texts);
    }
  }

  lemma {:induction false} LegalAt(files: map<string, Bytes>, log: seq<Event>, now: map<string, Bytes>, i: nat)
    requires Legal(files, log, now) && i < |log| && log[i].Committed?
    ensures Accepts(log[i].before, log[i].doc, log[i].request)
    decreases |log|
  {
    if i < |log| - 1 {
      var last := log[|log| - 1];
      LegalAt(files, log[..|log| - 1], if last.Committed? then last.before else now, i);
    }
  }

  /** A document of JSON files, each with a marker for its absence. */
  ghost predicate JsonDocument(doc: seq<Resource>, texts: set<string>) {
    forall k :: 0 <= k < |doc| ==> doc[k].path in texts && Sentinel(doc[k].absent)
  }

  /**
   No update is lost. When a committed update carries the revision that some client read, the document
   it replaced was, byte for byte and resource by resource, the one that client had read.
   */
  lemma NoLostUpdate(files: map<string, Bytes>, actions: seq<Action>, texts: set<string>, i: nat, j: nat)
    requires AllJson(files, texts) && forall a :: a in actions ==> PlansJson(a, texts)
    requires i < |TakeAll(Start(files), actions).log| && j < |TakeAll(Start(files), actions).log|
    requires TakeAll(Start(files), actions).log[i].ReadBack? && TakeAll(Start(files), actions).log[j].Committed?
    ensures
      var read, saved := TakeAll(Start(files), actions).log[i], TakeAll(Start(files), actions).log[j];
      saved.doc == read.doc && JsonDocument(read.doc, texts)
        && saved.request == Update(RevisionOf(read.files, read.doc))
      ==> Snapshot(saved.before, saved.doc) == Snapshot(read.files, read.doc)
  {
    Serializable(files, actions);
    StartInv(files);
    TakeAllKeepsJson(files, Start(files), actions, texts);
    var w := TakeAll(Start(files), actions);
    var read, saved := w.log[i], w.log[j];
    LegalAt(files, w.log, Current(w), j);
    if saved.doc == read.doc && JsonDocument(read.doc, texts) {
      RevisionIdentifiesSnapshot(saved.before, read.files, read.doc);
    }
  }
}
