/** Every interleaving of the driver's requests, runners and deliveries. A step is the code between two
    suspending awaits (src/lumi/experiment/handlers.py, lines 347-463). */
module DriverRuns {
  import opened Common
  import opened Handler

  /** A request or runner in progress, by where it is suspended. */
  datatype Activity =
    | Inline(what: string)                                // inside `async with self._moving(what)`
    | Starting(task: Task, moves: bool)                    // in `_start_task`, opening the journal row
    | Running(task: Task, moves: bool, row: Option<nat>)   // its coroutine is in progress
    | Closing(task: Task, row: Option<nat>, ok: bool)      // coroutine over, closing the journal row
    | Reporting(task: Task, ok: bool)                      // about to push its result
  {
    /** It moves the chamber, and so must hold the motion claim. */
    predicate Holds() {
      Inline? || ((Starting? || Running?) && moves)
    }

    function Name(): string
      requires Holds()
    {
      if Inline? then what else task.kind
    }

    predicate InFlight() {
      Starting? || Running?
    }

    predicate Unreported() {
      Closing? || Reporting?
    }
  }

  /** The driver, what is in progress on it, the events delivered so far, the journal's rows (how often each was
      closed), the tasks ever started and those whose start failed. */
  datatype System = System(
    h: State, acts: map<nat, Activity>, nextId: nat, delivered: seq<TaskEvent>, rows: seq<nat>,
    started: set<nat>, failedStarts: set<nat>)

  const IDLE: System := System(INITIAL, map[], 0, [], [], {}, {})

  datatype Step =
    | BeginInline(what: string)
    | EndInline(id: nat)
    | BeginTask(kind: string, moves: bool)
    | Launch(id: nat, journaled: bool)
    | FailStart(id: nat)
    | EndCoroutine(id: nat, ok: bool)
    | CloseRow(id: nat, stored: bool)
    | Report(id: nat)
    | SetPending(kind: string)
    | ClearPending
    | Confirm(id: nat)
    | PushPicture
    | Deliver

  function Without(acts: map<nat, Activity>, id: nat): map<nat, Activity> {
    map k | k in acts && k != id :: acts[k]
  }

  /** One step. A step that is not enabled, or that the driver refuses, changes nothing. On `h` each does what the
      driver's method does in place: `BeginInline` is `ClaimMotion`, `EndInline` and a moving `FailStart` are
      `ReleaseMotion`, `BeginTask` is `StartTask`, `EndCoroutine` is `EndTask`, `Report` and `PushPicture` are `Push`,
      `Deliver` is `NextUpdate`; the three about confirmations have the methods' names. A `FailStart` stands for a
      request cancelled while the journal row is being opened. */
  function Next(s: System, step: Step): System {
    match step
    case BeginInline(what) =>
      if s.h.motion.Some? then s
      else s.(h := s.h.(motion := Some(what)), acts := s.acts[s.nextId := Inline(what)], nextId := s.nextId + 1)
    case EndInline(id) =>
      if id in s.acts && s.acts[id].Inline? then s.(h := s.h.(motion := None), acts := Without(s.acts, id)) else s
    case BeginTask(kind, moves) =>
      if moves && s.h.motion.Some? then s
      else
        var t := Task(s.nextId, kind);
        s.(h := Started(if moves then s.h.(motion := Some(kind)) else s.h, t),
           acts := s.acts[s.nextId := Starting(t, moves)], nextId := s.nextId + 1, started := s.started + {s.nextId})
    case Launch(id, journaled) =>
      if id in s.acts && s.acts[id].Starting? then
        var row := if journaled then Some(|s.rows|) else None;
        s.(acts := s.acts[id := Running(s.acts[id].task, s.acts[id].moves, row)],
           rows := if journaled then s.rows + [0] else s.rows)
      else s
    case FailStart(id) =>
      if id in s.acts && s.acts[id].Starting? then
        s.(h := if s.acts[id].moves then s.h.(motion := None) else s.h,
           acts := Without(s.acts, id), failedStarts := s.failedStarts + {id})
      else s
    case EndCoroutine(id, ok) =>
      if id in s.acts && s.acts[id].Running? then
        s.(h := Ended(s.h, s.acts[id].moves), acts := s.acts[id := Closing(s.acts[id].task, s.acts[id].row, ok)])
      else s
    case CloseRow(id, stored) =>
      if id in s.acts && s.acts[id].Closing? then
        s.(acts := s.acts[id := Reporting(s.acts[id].task, s.acts[id].ok)], rows := Closed(s.rows, s.acts[id].row, stored))
      else s
    case Report(id) =>
      if id in s.acts && s.acts[id].Reporting? then
        s.(h := Pushed(s.h, Some(s.acts[id].ok), Some(s.acts[id].task)), acts := Without(s.acts, id))
      else s
    case SetPending(kind) =>
      s.(h := WithPending(s.h, Some(Pending(s.nextId, kind))), nextId := s.nextId + 1)
    case ClearPending => s.(h := WithPending(s.h, None))
    case Confirm(id) =>
      if s.h.pending.Some? && s.h.pending.value.id == id then s.(h := WithPending(s.h, None)) else s
    case PushPicture => s.(h := Pushed(s.h, None, None))
    case Deliver =>
      if s.h.updates == [] then s
      else s.(h := s.h.(updates := s.h.updates[1..]), delivered := s.delivered + [s.h.updates[0]])
  }

  /** The row is marked closed if there is one and the database takes it. */
  function Closed(rows: seq<nat>, row: Option<nat>, stored: bool): seq<nat> {
    if row.Some? && row.value < |rows| && stored then rows[row.value := rows[row.value] + 1] else rows
  }

  function Run(s: System, steps: seq<Step>): System {
    if steps == [] then s else Next(Run(s, steps[..|steps| - 1]), steps[|steps| - 1])
  }

  /** Every event ever pushed, delivered or still queued. */
  function AllEvents(s: System): seq<TaskEvent> {
    s.delivered + s.h.updates
  }

  // ----- one move at a time --------------------------------------------------------------

  /** The claim is held exactly while one claiming activity is in progress, under that activity's name. */
  ghost predicate MotionIsExclusive(s: System) {
    && (forall id :: id in s.acts && s.acts[id].Holds() ==> s.h.motion == Some(s.acts[id].Name()))
    && (forall a, b :: a in s.acts && b in s.acts && s.acts[a].Holds() && s.acts[b].Holds() ==> a == b)
    && (s.h.motion.Some? ==> exists id :: id in s.acts && s.acts[id].Holds())
  }

  /** Identifiers are never reused. */
  ghost predicate IdsAreOld(s: System) {
    forall id :: id in s.acts ==> id < s.nextId
  }

  lemma StepKeepsOldIds(s: System, step: Step)
    requires IdsAreOld(s)
    ensures IdsAreOld(Next(s, step))
  {
  }

  lemma ClaimTakesMotion(s: System, s': System, a: Activity)
    requires IdsAreOld(s) && MotionIsExclusive(s) && s.h.motion == None
    requires a.Holds() && s'.h.motion == Some(a.Name()) && s'.acts == s.acts[s.nextId := a]
    ensures MotionIsExclusive(s')
  {
    assert s.nextId in s'.acts && s'.acts[s.nextId].Holds();
  }

  /** No activity gains or loses a claim, and neither does the driver. */
  lemma SameClaimsKeepMotion(s: System, s': System)
    requires MotionIsExclusive(s) && s'.h.motion == s.h.motion
    requires forall id :: id in s'.acts && s'.acts[id].Holds() ==> id in s.acts && s.acts[id].Holds() && s'.acts[id].Name() == s.acts[id].Name()
    requires forall id :: id in s.acts && s.acts[id].Holds() ==> id in s'.acts && s'.acts[id].Holds()
    ensures MotionIsExclusive(s')
  {
    if s.h.motion.Some? {
      var id :| id in s.acts && s.acts[id].Holds();
      assert id in s'.acts && s'.acts[id].Holds();
    }
  }

  lemma HolderLeavesMotion(s: System, s': System, id: nat)
    requires MotionIsExclusive(s) && id in s.acts && s.acts[id].Holds() && s'.h.motion == None
    requires forall k :: k in s'.acts && s'.acts[k].Holds() ==> k in s.acts && k != id && s.acts[k].Holds()
    ensures MotionIsExclusive(s')
  {
  }

  lemma StartsKeepMotion(s: System, step: Step)
    requires IdsAreOld(s) && MotionIsExclusive(s) && (step.BeginInline? || step.BeginTask?)
    ensures MotionIsExclusive(Next(s, step))
  {
    var s' := Next(s, step);
    if step.BeginInline? {
      if s' != s { ClaimTakesMotion(s, s', Inline(step.what)); }
    } else if s' != s && step.moves {
      ClaimTakesMotion(s, s', Starting(Task(s.nextId, step.kind), true));
    } else {
      SameClaimsKeepMotion(s, s');
    }
  }

  lemma EndsKeepMotion(s: System, step: Step)
    requires MotionIsExclusive(s) && (step.EndInline? || step.FailStart? || step.EndCoroutine?)
    ensures MotionIsExclusive(Next(s, step))
  {
    var s' := Next(s, step);
    if s' != s && s.acts[step.id].Holds() {
      HolderLeavesMotion(s, s', step.id);
    } else {
      SameClaimsKeepMotion(s, s');
    }
  }

  lemma StepKeepsMotion(s: System, step: Step)
    requires IdsAreOld(s) && MotionIsExclusive(s)
    ensures MotionIsExclusive(Next(s, step))
  {
    if step.BeginInline? || step.BeginTask? {
      StartsKeepMotion(s, step);
    } else if step.EndInline? || step.FailStart? || step.EndCoroutine? {
      EndsKeepMotion(s, step);
    } else {
      SameClaimsKeepMotion(s, Next(s, step));
    }
  }

  lemma {:induction false} MotionIsExclusiveAlways(steps: seq<Step>)
    ensures IdsAreOld(Run(IDLE, steps)) && MotionIsExclusive(Run(IDLE, steps))
  {
    if steps != [] {
      MotionIsExclusiveAlways(steps[..|steps| - 1]);
      StepKeepsOldIds(Run(IDLE, steps[..|steps| - 1]), steps[|steps| - 1]);
      StepKeepsMotion(Run(IDLE, steps[..|steps| - 1]), steps[|steps| - 1]);
    }
  }

  /** Leaving a claiming activity, by whatever path, frees the claim that this activity itself held. */
  lemma ReleasesItsOwnClaim(steps: seq<Step>, id: nat, ok: bool)
    ensures var s := Run(IDLE, steps);
            id in s.acts && s.acts[id].Holds() ==>
              && s.h.motion == Some(s.acts[id].Name())
              && (s.acts[id].Inline? ==> Next(s, EndInline(id)).h.motion == None)
              && (s.acts[id].Starting? ==> Next(s, FailStart(id)).h.motion == None)
              && (s.acts[id].Running? ==> Next(s, EndCoroutine(id, ok)).h.motion == None)
  {
    MotionIsExclusiveAlways(steps);
  }

  // ----- the clients' picture --------------------------------------------------------------

  /** A client that folds every pushed event has the driver's pending confirmation, and its current task unless
      some runner has cleared the task and not yet pushed its result. */
  ghost predicate PictureIsTrue(s: System) {
    var seen := FoldUpdates(NOTHING_SEEN, AllEvents(s));
    && seen.pending == s.h.pending
    && (seen.current == s.h.current || exists id :: id in s.acts && s.acts[id].Unreported())
  }

  lemma PushShowsPicture(s: System, h': State, result: Option<bool>, finished: Option<Task>)
    requires h' == Pushed(h'.(updates := s.h.updates), result, finished)
    ensures var seen := FoldUpdates(NOTHING_SEEN, s.delivered + h'.updates);
            seen.pending == h'.pending && seen.current == h'.current
  {
    var e := TaskEvent(h'.pending, h'.current, result, finished);
    assert s.delivered + h'.updates == AllEvents(s) + [e];
    FoldAppend(NOTHING_SEEN, AllEvents(s), e);
  }

  lemma StepKeepsPicture(s: System, step: Step)
    requires IdsAreOld(s) && PictureIsTrue(s)
    ensures PictureIsTrue(Next(s, step))
  {
    var s' := Next(s, step);
    match step {
      case BeginTask(_, _) => if s' != s { PushShowsPicture(s, s'.h, None, None); }
      case Report(id) => if s' != s { PushShowsPicture(s, s'.h, Some(s.acts[id].ok), Some(s.acts[id].task)); }
      case SetPending(_) => PushShowsPicture(s, s'.h, None, None);
      case ClearPending => PushShowsPicture(s, s'.h, None, None);
      case Confirm(_) => if s' != s { PushShowsPicture(s, s'.h, None, None); }
      case PushPicture => PushShowsPicture(s, s'.h, None, None);
      case Deliver => assert AllEvents(s') == AllEvents(s);
      case EndCoroutine(id, ok) => if s' != s { assert s'.acts[id].Unreported(); }
      case CloseRow(id, _) =>
        if s' != s { assert s'.acts[id].Unreported(); }
      case _ => OthersStayUnreported(s, step);
    }
  }

  lemma OthersStayUnreported(s: System, step: Step)
    requires IdsAreOld(s) && (step.BeginInline? || step.EndInline? || step.Launch? || step.FailStart?)
    ensures forall id :: id in s.acts && s.acts[id].Unreported() ==>
              id in Next(s, step).acts && Next(s, step).acts[id].Unreported()
  {
  }

  lemma {:induction false} PictureIsTrueAlways(steps: seq<Step>)
    ensures PictureIsTrue(Run(IDLE, steps))
  {
    if steps != [] {
      PictureIsTrueAlways(steps[..|steps| - 1]);
      MotionIsExclusiveAlways(steps[..|steps| - 1]);
      StepKeepsPicture(Run(IDLE, steps[..|steps| - 1]), steps[|steps| - 1]);
    }
  }

  // ----- the current task ------------------------------------------------------------------

  ghost predicate IsInFlight(s: System, t: Task) {
    t.id in s.acts && s.acts[t.id].InFlight() && s.acts[t.id].task == t
  }

  /** The current task is in flight exactly when its start did not fail: that path drops the claim but not the task. */
  ghost predicate CurrentIsLive(s: System) {
    && (s.h.current.Some? ==> (IsInFlight(s, s.h.current.value) <==> s.h.current.value.id !in s.failedStarts))
    && (forall id :: id in s.acts && !s.acts[id].Inline? ==> s.acts[id].task.id == id)
    && (forall id :: id in s.failedStarts ==> id < s.nextId && id !in s.acts)
  }

  lemma StepKeepsCurrent(s: System, step: Step)
    requires IdsAreOld(s) && CurrentIsLive(s)
    ensures CurrentIsLive(Next(s, step))
  {
  }

  lemma {:induction false} CurrentIsLiveAlways(steps: seq<Step>)
    ensures CurrentIsLive(Run(IDLE, steps))
  {
    if steps != [] {
      CurrentIsLiveAlways(steps[..|steps| - 1]);
      MotionIsExclusiveAlways(steps[..|steps| - 1]);
      StepKeepsCurrent(Run(IDLE, steps[..|steps| - 1]), steps[|steps| - 1]);
    }
  }

  lemma RunOneMore(s: System, steps: seq<Step>, step: Step)
    ensures Run(s, steps + [step]) == Next(Run(s, steps), step)
  {
    assert (steps + [step])[..|steps|] == steps;
  }

  /** A start that fails leaves its task current although nothing of it is in progress. */
  lemma FailedStartStaysCurrent(kind: string, moves: bool)
    ensures var s := Run(IDLE, [BeginTask(kind, moves), FailStart(0)]);
            s.h.current == Some(Task(0, kind)) && s.acts == map[] && s.h.motion == None
  {
    RunOneMore(IDLE, [], BeginTask(kind, moves));
    RunOneMore(IDLE, [BeginTask(kind, moves)], FailStart(0));
    assert [] + [BeginTask(kind, moves)] == [BeginTask(kind, moves)];
    assert [BeginTask(kind, moves)] + [FailStart(0)] == [BeginTask(kind, moves), FailStart(0)];
  }

  /** A start that goes ahead: a task, and if it moves, with the claim free. */
  predicate StartsTask(s: System, step: Step) {
    step.BeginTask? && !(step.moves && s.h.motion.Some?)
  }

  ghost predicate NoneInFlight(s: System) {
    forall id :: id in s.acts ==> !s.acts[id].InFlight()
  }

  /** No task is started while another is in flight. */
  ghost predicate Serial(steps: seq<Step>) {
    if steps == [] then true
    else
      var before, last := steps[..|steps| - 1], steps[|steps| - 1];
      Serial(before) && (StartsTask(Run(IDLE, before), last) ==> NoneInFlight(Run(IDLE, before)))
  }

  ghost predicate AllCurrent(s: System) {
    forall id :: id in s.acts && s.acts[id].InFlight() ==> s.h.current == Some(s.acts[id].task)
  }

  ghost predicate CurrentThroughout(steps: seq<Step>) {
    AllCurrent(Run(IDLE, steps)) && (steps == [] || CurrentThroughout(steps[..|steps| - 1]))
  }

  /** The one task in flight is the current one. */
  ghost predicate SerialState(s: System) {
    && AllCurrent(s)
    && (forall a, b :: a in s.acts && b in s.acts && s.acts[a].InFlight() && s.acts[b].InFlight() ==> a == b)
  }

  lemma StepKeepsSerial(s: System, step: Step)
    requires IdsAreOld(s) && SerialState(s) && (StartsTask(s, step) ==> NoneInFlight(s))
    ensures SerialState(Next(s, step))
  {
  }

  lemma {:induction false} SerialTasksAreCurrent(steps: seq<Step>)
    requires Serial(steps)
    ensures SerialState(Run(IDLE, steps)) && CurrentThroughout(steps)
  {
    if steps != [] {
      SerialTasksAreCurrent(steps[..|steps| - 1]);
      MotionIsExclusiveAlways(steps[..|steps| - 1]);
      StepKeepsSerial(Run(IDLE, steps[..|steps| - 1]), steps[|steps| - 1]);
    }
  }

  /** A start while another task is in flight takes the mark from that task. */
  lemma OverlapHidesTask(s: System, step: Step, id: nat)
    requires IdsAreOld(s) && CurrentIsLive(s) && StartsTask(s, step) && id in s.acts && s.acts[id].InFlight()
    ensures var s' := Next(s, step);
            id in s'.acts && s'.acts[id].InFlight() && s'.h.current != Some(s'.acts[id].task)
  {
  }

  /** Every task in flight is the current one at every moment of a run if and only if no task is started while
      another is in flight, whether starts fail or not. */
  lemma {:induction false} CurrentThroughoutExactly(steps: seq<Step>)
    ensures CurrentThroughout(steps) <==> Serial(steps)
  {
    if steps != [] {
      var before, step := steps[..|steps| - 1], steps[|steps| - 1];
      CurrentThroughoutExactly(before);
      if Serial(steps) {
        SerialTasksAreCurrent(steps);
      } else if StartsTask(Run(IDLE, before), step) && !NoneInFlight(Run(IDLE, before)) {
        var id :| id in Run(IDLE, before).acts && Run(IDLE, before).acts[id].InFlight();
        MotionIsExclusiveAlways(before);
        CurrentIsLiveAlways(before);
        OverlapHidesTask(Run(IDLE, before), step, id);
      }
    }
  }

  // ----- exactly one result for every task ------------------------------------------------

  /** How many events report the end of task `id`. */
  function ResultsFor(events: seq<TaskEvent>, id: nat): nat {
    if events == [] then 0
    else
      var e := events[|events| - 1];
      ResultsFor(events[..|events| - 1], id) + (if e.finished.Some? && e.finished.value.id == id then 1 else 0)
  }

  ghost predicate IsOver(s: System, id: nat) {
    id in s.started && id !in s.acts && id !in s.failedStarts
  }

  ghost predicate TasksAreTracked(s: System) {
    && (forall id :: id in s.acts ==> (id in s.started <==> !s.acts[id].Inline?) && id !in s.failedStarts)
    && (forall id :: id in s.acts && !s.acts[id].Inline? ==> s.acts[id].task.id == id)
    && (forall id :: id in s.started ==> id < s.nextId)
    && s.failedStarts <= s.started
  }

  /** A task that is over has reported once; one that is not, or failed to start, never. */
  ghost predicate OneResultEach(s: System) {
    forall id: nat :: ResultsFor(AllEvents(s), id) == if IsOver(s, id) then 1 else 0
  }

  lemma ResultsAppend(events: seq<TaskEvent>, e: TaskEvent, id: nat)
    ensures ResultsFor(events + [e], id) == ResultsFor(events, id) + (if e.finished.Some? && e.finished.value.id == id then 1 else 0)
  {
    assert (events + [e])[..|events|] == events;
  }

  lemma PushAddsResult(s: System, s': System, result: Option<bool>, finished: Option<Task>, id: nat)
    requires s'.delivered == s.delivered && s'.h == Pushed(s'.h.(updates := s.h.updates), result, finished)
    ensures ResultsFor(AllEvents(s'), id) ==
            ResultsFor(AllEvents(s), id) + (if finished.Some? && finished.value.id == id then 1 else 0)
  {
    var e := TaskEvent(s'.h.pending, s'.h.current, result, finished);
    assert AllEvents(s') == AllEvents(s) + [e];
    ResultsAppend(AllEvents(s), e, id);
  }

  /** How a step changes the list of all events: at most one is added, and it reports a task only in `Report`. */
  lemma EventsGrow(s: System, step: Step, id: nat)
    requires TasksAreTracked(s)
    ensures ResultsFor(AllEvents(Next(s, step)), id) ==
            ResultsFor(AllEvents(s), id) + (if step == Report(id) && id in s.acts && s.acts[id].Reporting? then 1 else 0)
  {
    var s' := Next(s, step);
    match step {
      case BeginTask(_, _) => if s' != s { PushAddsResult(s, s', None, None, id); }
      case Report(k) => if s' != s { PushAddsResult(s, s', Some(s.acts[k].ok), Some(s.acts[k].task), id); }
      case SetPending(_) => PushAddsResult(s, s', None, None, id);
      case ClearPending => PushAddsResult(s, s', None, None, id);
      case Confirm(_) => if s' != s { PushAddsResult(s, s', None, None, id); }
      case PushPicture => PushAddsResult(s, s', None, None, id);
      case Deliver => assert AllEvents(s') == AllEvents(s);
      case _ => assert AllEvents(s') == AllEvents(s);
    }
  }

  lemma StepKeepsTracking(s: System, step: Step)
    requires IdsAreOld(s) && TasksAreTracked(s)
    ensures TasksAreTracked(Next(s, step))
  {
  }

  lemma StepKeepsOneResult(s: System, step: Step)
    requires IdsAreOld(s) && TasksAreTracked(s) && OneResultEach(s)
    ensures OneResultEach(Next(s, step))
  {
    forall id: nat
      ensures ResultsFor(AllEvents(Next(s, step)), id) == if IsOver(Next(s, step), id) then 1 else 0
    {
      EventsGrow(s, step, id);
    }
  }

  lemma {:induction false} OneResultEachAlways(steps: seq<Step>)
    ensures TasksAreTracked(Run(IDLE, steps)) && OneResultEach(Run(IDLE, steps))
  {
    if steps != [] {
      OneResultEachAlways(steps[..|steps| - 1]);
      MotionIsExclusiveAlways(steps[..|steps| - 1]);
      StepKeepsTracking(Run(IDLE, steps[..|steps| - 1]), steps[|steps| - 1]);
      StepKeepsOneResult(Run(IDLE, steps[..|steps| - 1]), steps[|steps| - 1]);
    }
  }

  // ----- journal rows ------------------------------------------------------------------------

  ghost predicate HasRow(a: Activity) {
    (a.Running? || a.Closing?) && a.row.Some?
  }

  /** No row is closed twice: a task still to close its row owns it alone, and it is open. */
  ghost predicate RowsCloseOnce(s: System) {
    && (forall i :: 0 <= i < |s.rows| ==> s.rows[i] <= 1)
    && (forall id :: id in s.acts && HasRow(s.acts[id]) ==> s.acts[id].row.value < |s.rows| && s.rows[s.acts[id].row.value] == 0)
    && (forall a, b :: a in s.acts && b in s.acts && HasRow(s.acts[a]) && HasRow(s.acts[b]) && a != b ==>
          s.acts[a].row != s.acts[b].row)
  }

  lemma LaunchKeepsRows(s: System, id: nat, journaled: bool)
    requires RowsCloseOnce(s)
    ensures RowsCloseOnce(Next(s, Launch(id, journaled)))
  {
  }

  lemma CloseKeepsRows(s: System, id: nat, stored: bool)
    requires RowsCloseOnce(s)
    ensures RowsCloseOnce(Next(s, CloseRow(id, stored)))
  {
    var s' := Next(s, CloseRow(id, stored));
    forall k | k in s'.acts && HasRow(s'.acts[k])
      ensures s'.acts[k].row.value < |s'.rows| && s'.rows[s'.acts[k].row.value] == 0
    {
      assert HasRow(s.acts[k]);
      if k != id && id in s.acts && HasRow(s.acts[id]) { assert s.acts[k].row != s.acts[id].row; }
    }
  }

  lemma InheritedRowsKeep(s: System, s': System)
    requires RowsCloseOnce(s) && s'.rows == s.rows
    requires forall id :: id in s'.acts && HasRow(s'.acts[id]) ==>
               id in s.acts && HasRow(s.acts[id]) && s.acts[id].row == s'.acts[id].row
    ensures RowsCloseOnce(s')
  {
  }

  lemma StepKeepsRows(s: System, step: Step)
    requires RowsCloseOnce(s)
    ensures RowsCloseOnce(Next(s, step))
  {
    match step {
      case Launch(id, journaled) => LaunchKeepsRows(s, id, journaled);
      case CloseRow(id, stored) => CloseKeepsRows(s, id, stored);
      case _ => InheritedRowsKeep(s, Next(s, step));
    }
  }

  lemma {:induction false} RowsCloseOnceAlways(steps: seq<Step>)
    ensures RowsCloseOnce(Run(IDLE, steps))
  {
    if steps != [] {
      RowsCloseOnceAlways(steps[..|steps| - 1]);
      StepKeepsRows(Run(IDLE, steps[..|steps| - 1]), steps[|steps| - 1]);
    }
  }

  // ----- waiting for a task --------------------------------------------------------------------

  lemma {:induction false} StartedStays(steps: seq<Step>, n: nat)
    requires n <= |steps|
    ensures Run(IDLE, steps[..n]).started <= Run(IDLE, steps).started
  {
    if n < |steps| {
      assert steps[..|steps| - 1][..n] == steps[..n];
      StartedStays(steps[..|steps| - 1], n);
    } else {
      assert steps[..n] == steps;
    }
  }

  /** Polls the driver until the task is no longer current (src/lumi/experiment/recipes.py): `answers` are the
      current task as each poll saw it, and `polls` says which poll ended the wait. */
  method WaitForTask(answers: seq<Option<Task>>, id: nat) returns (polls: nat)
    ensures polls <= |answers|
    ensures forall j :: 0 <= j < polls ==> answers[j].Some? && answers[j].value.id == id
    ensures polls < |answers| ==> answers[polls].None? || answers[polls].value.id != id
  {
    polls := 0;
    while polls < |answers|
      invariant polls <= |answers|
      invariant forall j :: 0 <= j < polls ==> answers[j].Some? && answers[j].value.id == id
    {
      if answers[polls].None? || answers[polls].value.id != id {
        return;
      }
      polls := polls + 1;
    }
  }

  /** In a run without overlapping tasks, a poll that ends the wait for a task started at step `n` sees a state in
      which that task's coroutine has finished, unless its start failed. */
  lemma WaitEndsAfterTheTask(steps: seq<Step>, n: nat, id: nat)
    requires Serial(steps) && n <= |steps| && id in Run(IDLE, steps[..n]).started
    requires var current := Run(IDLE, steps).h.current; current.None? || current.value.id != id
    ensures var s := Run(IDLE, steps); IsOver(s, id) || (id in s.acts && s.acts[id].Unreported()) || id in s.failedStarts
  {
    StartedStays(steps, n);
    SerialTasksAreCurrent(steps);
    OneResultEachAlways(steps);
  }

  // ----- whose outcome the wait returns ----------------------------------------------------------

  predicate Reports(e: TaskEvent, id: nat) {
    e.finished.Some? && e.finished.value.id == id
  }

  /** An event brings a result exactly when it names the task that finished. */
  ghost predicate EventsAreWhole(events: seq<TaskEvent>) {
    forall k :: 0 <= k < |events| ==> (events[k].result.Some? <==> events[k].finished.Some?)
  }

  lemma StepKeepsWhole(s: System, step: Step)
    requires EventsAreWhole(s.delivered) && EventsAreWhole(s.h.updates)
    ensures EventsAreWhole(Next(s, step).delivered) && EventsAreWhole(Next(s, step).h.updates)
  {
  }

  lemma {:induction false} EventsAreWholeAlways(steps: seq<Step>)
    ensures EventsAreWhole(Run(IDLE, steps).delivered) && EventsAreWhole(Run(IDLE, steps).h.updates)
  {
    if steps != [] {
      EventsAreWholeAlways(steps[..|steps| - 1]);
      StepKeepsWhole(Run(IDLE, steps[..|steps| - 1]), steps[|steps| - 1]);
    }
  }

  /** The outcome a session holds is the one reported for task `id`. */
  predicate HoldsOutcomeOf(c: ClientView, id: nat) {
    c.lastFinished.Some? && c.lastFinished.value.id == id
  }

  /** Task `id`'s result is among the events, and no result comes after it. */
  ghost predicate ReportedLast(events: seq<TaskEvent>, id: nat) {
    exists k :: 0 <= k < |events| && Reports(events[k], id) && NoResultAfter(events, k)
  }

  ghost predicate NoResultAfter(events: seq<TaskEvent>, k: nat) {
    forall j :: k < j < |events| ==> events[j].finished.None?
  }

  lemma {:induction false} FoldHoldsLastReport(events: seq<TaskEvent>, id: nat)
    requires EventsAreWhole(events)
    ensures HoldsOutcomeOf(FoldUpdates(NOTHING_SEEN, events), id) <==> ReportedLast(events, id)
  {
    if events != [] {
      var before, last := events[..|events| - 1], events[|events| - 1];
      assert events == before + [last];
      FoldHoldsLastReport(before, id);
      ReportedLastGrows(before, last, id);
    }
  }

  lemma ReportedLastGrows(before: seq<TaskEvent>, last: TaskEvent, id: nat)
    ensures ReportedLast(before + [last], id) <==> if last.finished.Some? then Reports(last, id) else ReportedLast(before, id)
  {
    var events := before + [last];
    assert forall k :: 0 <= k < |before| ==> events[k] == before[k];
    assert events[|before|] == last;
    if ReportedLast(events, id) {
      var k :| 0 <= k < |events| && Reports(events[k], id) && NoResultAfter(events, k);
      if k < |before| { assert NoResultAfter(before, k); }
    }
    if last.finished.Some? && Reports(last, id) {
      assert NoResultAfter(events, |before|);
    }
    if last.finished.None? && ReportedLast(before, id) {
      var k :| 0 <= k < |before| && Reports(before[k], id) && NoResultAfter(before, k);
      assert Reports(events[k], id) && NoResultAfter(events, k);
    }
  }

  /** In every run, overlapping or not, the outcome read is task `id`'s own if and only if its report has been
      delivered by then and no result was delivered after it. */
  lemma WaitedOutcomeIsOwnExactly(steps: seq<Step>, id: nat)
    ensures HoldsOutcomeOf(FoldUpdates(NOTHING_SEEN, Run(IDLE, steps).delivered), id) <==> ReportedLast(Run(IDLE, steps).delivered, id)
  {
    EventsAreWholeAlways(steps);
    FoldHoldsLastReport(Run(IDLE, steps).delivered, id);
  }

  lemma {:induction false} ReportIsCounted(events: seq<TaskEvent>, k: nat, id: nat)
    requires k < |events| && Reports(events[k], id)
    ensures ResultsFor(events, id) > 0
  {
    if k < |events| - 1 {
      ReportIsCounted(events[..|events| - 1], k, id);
    }
  }

  // ----- and what that outcome says ---------------------------------------------------------------

  /** The coroutine of task `id` ended with this success. */
  ghost predicate EndedWith(steps: seq<Step>, id: nat, ok: bool) {
    exists n :: 0 <= n < |steps| && EndsAt(steps, n, id, ok)
  }

  ghost predicate EndsAt(steps: seq<Step>, n: nat, id: nat, ok: bool)
    requires n < |steps|
  {
    steps[n] == EndCoroutine(id, ok) && id in Run(IDLE, steps[..n]).acts && Run(IDLE, steps[..n]).acts[id].Running?
  }

  lemma EndedWithStays(steps: seq<Step>, id: nat, ok: bool)
    requires steps != [] && EndedWith(steps[..|steps| - 1], id, ok)
    ensures EndedWith(steps, id, ok)
  {
    var before := steps[..|steps| - 1];
    var n :| 0 <= n < |before| && EndsAt(before, n, id, ok);
    assert before[..n] == steps[..n] && EndsAt(steps, n, id, ok);
  }

  /** Its success is what a closing or reporting task carries and what its report brings. */
  ghost predicate ActsTell(steps: seq<Step>, acts: map<nat, Activity>) {
    forall id :: id in acts ==> ActTells(steps, id, acts[id])
  }

  ghost predicate ActTells(steps: seq<Step>, id: nat, a: Activity) {
    a.Inline? || (a.task.id == id && (a.Unreported() ==> EndedWith(steps, id, a.ok)))
  }

  ghost predicate EventTells(steps: seq<Step>, e: TaskEvent) {
    e.finished.Some? ==> e.result.Some? && EndedWith(steps, e.finished.value.id, e.result.value)
  }

  ghost predicate EventsTell(steps: seq<Step>, events: seq<TaskEvent>) {
    forall k :: 0 <= k < |events| ==> EventTells(steps, events[k])
  }

  lemma ActsStillTell(steps: seq<Step>)
    requires steps != []
    requires var before := steps[..|steps| - 1]; IdsAreOld(Run(IDLE, before)) && ActsTell(before, Run(IDLE, before).acts)
    ensures ActsTell(steps, Run(IDLE, steps).acts)
  {
    var before, step := steps[..|steps| - 1], steps[|steps| - 1];
    var s, s' := Run(IDLE, before), Run(IDLE, steps);
    forall id | id in s.acts ensures ActTells(steps, id, s.acts[id]) {
      assert ActTells(before, id, s.acts[id]);
      if s.acts[id].Unreported() { EndedWithStays(steps, id, s.acts[id].ok); }
    }
    if step.EndCoroutine? && step.id in s.acts && s.acts[step.id].Running? {
      assert EndsAt(steps, |steps| - 1, step.id, step.ok);
    }
    forall id | id in s'.acts ensures ActTells(steps, id, s'.acts[id]) {
      if id in s.acts { assert ActTells(steps, id, s.acts[id]); }
    }
  }

  lemma EventsStillTell(steps: seq<Step>, events: seq<TaskEvent>)
    requires steps != [] && EventsTell(steps[..|steps| - 1], events)
    ensures EventsTell(steps, events)
  {
    forall k | 0 <= k < |events| ensures EventTells(steps, events[k]) {
      assert EventTells(steps[..|steps| - 1], events[k]);
      if events[k].finished.Some? { EndedWithStays(steps, events[k].finished.value.id, events[k].result.value); }
    }
  }

  lemma NewEventTells(steps: seq<Step>, s: System, step: Step)
    requires EventsTell(steps, AllEvents(s)) && ActsTell(steps, s.acts)
    ensures EventsTell(steps, AllEvents(Next(s, step)))
  {
    var s' := Next(s, step);
    if AllEvents(s') != AllEvents(s) {
      var e := s'.h.updates[|s'.h.updates| - 1];
      assert AllEvents(s') == AllEvents(s) + [e] && EventTells(steps, e);
    }
  }

  lemma {:induction false} EventsTellAlways(steps: seq<Step>)
    ensures ActsTell(steps, Run(IDLE, steps).acts) && EventsTell(steps, AllEvents(Run(IDLE, steps)))
  {
    if steps != [] {
      var before := steps[..|steps| - 1];
      EventsTellAlways(before);
      MotionIsExclusiveAlways(before);
      NewEventTells(before, Run(IDLE, before), steps[|steps| - 1]);
      EventsStillTell(steps, AllEvents(Run(IDLE, steps)));
      ActsStillTell(steps);
    }
  }

  /** In every run, a session that holds the outcome of task `id` holds the success with which its coroutine ended. */
  lemma HeldOutcomeIsTheTasks(steps: seq<Step>, id: nat)
    requires HoldsOutcomeOf(FoldUpdates(NOTHING_SEEN, Run(IDLE, steps).delivered), id)
    ensures var result := FoldUpdates(NOTHING_SEEN, Run(IDLE, steps).delivered).lastResult;
            result.Some? && EndedWith(steps, id, result.value)
  {
    var s := Run(IDLE, steps);
    EventsTellAlways(steps);
    FoldKeepsLast(s.delivered);
    var k :| 0 <= k < |s.delivered| && IsLastResult(s.delivered, k);
    assert AllEvents(s)[k] == s.delivered[k] && EventTells(steps, AllEvents(s)[k]);
  }

  /** The coroutine of task `id` is over. */
  ghost predicate IsPast(s: System, id: nat) {
    id < s.nextId && (id in s.acts ==> s.acts[id].Unreported())
  }

  lemma PastStays(s: System, step: Step, id: nat)
    requires IsPast(s, id)
    ensures IsPast(Next(s, step), id)
  {
  }

  lemma EndIsPast(s: System, id: nat, ok: bool)
    requires IdsAreOld(s) && id in s.acts && s.acts[id].Running?
    ensures IsPast(Next(s, EndCoroutine(id, ok)), id)
  {
  }

  lemma {:induction false} PastAfter(steps: seq<Step>, n: nat, m: nat, id: nat, ok: bool)
    requires n < m <= |steps| && EndsAt(steps, n, id, ok)
    ensures IsPast(Run(IDLE, steps[..m]), id)
  {
    assert steps[..m][..m - 1] == steps[..m - 1];
    if n < m - 1 {
      PastAfter(steps, n, m - 1, id, ok);
      PastStays(Run(IDLE, steps[..m - 1]), steps[m - 1], id);
    } else {
      MotionIsExclusiveAlways(steps[..n]);
      EndIsPast(Run(IDLE, steps[..n]), id, ok);
    }
  }

  /** A coroutine ends once, so there is one such success. */
  lemma EndsOnce(steps: seq<Step>, n: nat, m: nat, id: nat, ok: bool, ok': bool)
    requires n < |steps| && m < |steps| && EndsAt(steps, n, id, ok) && EndsAt(steps, m, id, ok')
    ensures n == m && ok == ok'
  {
    if n < m { PastAfter(steps, n, m, id, ok); }
    if m < n { PastAfter(steps, m, n, id, ok'); }
  }

  /** So a wait that ends between the clearing of its task and that task's report, in whatever run, reads the outcome
      of another task or none. */
  lemma WaitedOutcomeCanBeStale(steps: seq<Step>, id: nat)
    requires id in Run(IDLE, steps).acts && Run(IDLE, steps).acts[id].Unreported()
    ensures !HoldsOutcomeOf(FoldUpdates(NOTHING_SEEN, Run(IDLE, steps).delivered), id)
  {
    var s := Run(IDLE, steps);
    WaitedOutcomeIsOwnExactly(steps, id);
    OneResultEachAlways(steps);
    if ReportedLast(s.delivered, id) {
      var k :| 0 <= k < |s.delivered| && Reports(s.delivered[k], id) && NoResultAfter(s.delivered, k);
      assert AllEvents(s)[k] == s.delivered[k];
      ReportIsCounted(AllEvents(s), k, id);
    }
  }

  /** No task is started while another has still to report. */
  ghost predicate Apart(steps: seq<Step>) {
    if steps == [] then true
    else
      var before, last := steps[..|steps| - 1], steps[|steps| - 1];
      Apart(before) && (StartsTask(Run(IDLE, before), last) ==> forall id :: id in Run(IDLE, before).acts ==> Run(IDLE, before).acts[id].Inline?)
  }

  ghost predicate InOrder(events: seq<TaskEvent>) {
    forall j, k :: 0 <= j < k < |events| && events[j].finished.Some? && events[k].finished.Some? ==>
      events[j].finished.value.id < events[k].finished.value.id
  }

  ghost predicate AllBelow(events: seq<TaskEvent>, n: nat) {
    forall k :: 0 <= k < |events| && events[k].finished.Some? ==> events[k].finished.value.id < n
  }

  /** Results are in the order of the tasks, and the one task still at work is later than all of them. */
  ghost predicate ResultsInOrder(s: System) {
    && InOrder(AllEvents(s)) && AllBelow(AllEvents(s), s.nextId)
    && (forall id :: id in s.acts && !s.acts[id].Inline? ==> AllBelow(AllEvents(s), id) && s.acts[id].task.id == id)
    && (forall a, b :: a in s.acts && b in s.acts && !s.acts[a].Inline? && !s.acts[b].Inline? ==> a == b)
  }

  lemma OneMoreBelow(events: seq<TaskEvent>, e: TaskEvent, n: nat)
    requires AllBelow(events, n) && (e.finished.Some? ==> e.finished.value.id < n)
    ensures AllBelow(events + [e], n)
  {
  }

  lemma OneMoreInOrder(events: seq<TaskEvent>, e: TaskEvent)
    requires InOrder(events) && (e.finished.Some? ==> AllBelow(events, e.finished.value.id))
    ensures InOrder(events + [e])
  {
  }

  /** A step that pushes an event, which reports a task only in `Report`. */
  lemma PushedInOrder(s: System, s': System, e: TaskEvent)
    requires ResultsInOrder(s) && IdsAreOld(s) && IdsAreOld(s') && s.nextId <= s'.nextId
    requires s'.delivered == s.delivered && s'.h.updates == s.h.updates + [e]
    requires forall id :: id in s'.acts && !s'.acts[id].Inline? ==>
               && s'.acts[id].task.id == id && e.finished.None?
               && (if id in s.acts then !s.acts[id].Inline? else id == s.nextId && forall k :: k in s.acts ==> s.acts[k].Inline?)
    requires e.finished.Some? ==> e.finished.value.id in s.acts && !s.acts[e.finished.value.id].Inline?
    ensures ResultsInOrder(s')
  {
    var events := AllEvents(s);
    assert AllEvents(s') == events + [e];
    OneMoreInOrder(events, e);
    OneMoreBelow(events, e, s'.nextId);
    forall id | id in s'.acts && !s'.acts[id].Inline? ensures AllBelow(AllEvents(s'), id) {
      OneMoreBelow(events, e, id);
    }
  }

  lemma QuietInOrder(s: System, s': System)
    requires ResultsInOrder(s) && AllEvents(s') == AllEvents(s) && s'.nextId >= s.nextId
    requires forall id :: id in s'.acts && !s'.acts[id].Inline? ==> id in s.acts && !s.acts[id].Inline? && s'.acts[id].task.id == id
    ensures ResultsInOrder(s')
  {
  }

  function Last(events: seq<TaskEvent>): TaskEvent
    requires events != []
  {
    events[|events| - 1]
  }

  lemma StepKeepsOrder(s: System, step: Step)
    requires IdsAreOld(s) && ResultsInOrder(s)
    requires StartsTask(s, step) ==> forall id :: id in s.acts ==> s.acts[id].Inline?
    ensures ResultsInOrder(Next(s, step))
  {
    var s' := Next(s, step);
    StepKeepsOldIds(s, step);
    match step {
      case BeginTask(_, _) => if s' != s { PushedInOrder(s, s', Last(s'.h.updates)); }
      case Report(_) => if s' != s { PushedInOrder(s, s', Last(s'.h.updates)); }
      case SetPending(_) => PushedInOrder(s, s', Last(s'.h.updates));
      case ClearPending => PushedInOrder(s, s', Last(s'.h.updates));
      case Confirm(_) => if s' != s { PushedInOrder(s, s', Last(s'.h.updates)); }
      case PushPicture => PushedInOrder(s, s', Last(s'.h.updates));
      case _ => QuietInOrder(s, s');
    }
  }

  lemma {:induction false} ResultsInOrderAlways(steps: seq<Step>)
    requires Apart(steps)
    ensures ResultsInOrder(Run(IDLE, steps))
  {
    if steps != [] {
      ResultsInOrderAlways(steps[..|steps| - 1]);
      MotionIsExclusiveAlways(steps[..|steps| - 1]);
      StepKeepsOrder(Run(IDLE, steps[..|steps| - 1]), steps[|steps| - 1]);
    }
  }

  /** Task `id`'s report is among the events, and no later task's is. */
  ghost predicate ReportedAndNoneLater(events: seq<TaskEvent>, id: nat) {
    && (exists k :: 0 <= k < |events| && Reports(events[k], id))
    && (forall j :: 0 <= j < |events| && events[j].finished.Some? ==> events[j].finished.value.id <= id)
  }

  lemma InOrderLastIsLatest(events: seq<TaskEvent>, id: nat)
    requires InOrder(events)
    ensures ReportedLast(events, id) <==> ReportedAndNoneLater(events, id)
  {
    if ReportedLast(events, id) {
      var k :| 0 <= k < |events| && Reports(events[k], id) && NoResultAfter(events, k);
      forall j | 0 <= j < |events| && events[j].finished.Some? ensures events[j].finished.value.id <= id {
      }
    }
    if ReportedAndNoneLater(events, id) {
      var k :| 0 <= k < |events| && Reports(events[k], id);
      assert NoResultAfter(events, k);
    }
  }

  /** When each task is started only after the one before it has reported, the outcome read is task `id`'s own if and
      only if its report has been delivered by then and no later task's result has. */
  lemma WaitedOutcomeIsOwnApart(steps: seq<Step>, id: nat)
    requires Apart(steps)
    ensures HoldsOutcomeOf(FoldUpdates(NOTHING_SEEN, Run(IDLE, steps).delivered), id) <==>
            ReportedAndNoneLater(Run(IDLE, steps).delivered, id)
  {
    var s := Run(IDLE, steps);
    WaitedOutcomeIsOwnExactly(steps, id);
    ResultsInOrderAlways(steps);
    assert forall k :: 0 <= k < |s.delivered| ==> AllEvents(s)[k] == s.delivered[k];
    InOrderLastIsLatest(s.delivered, id);
  }

  // ----- a slow report overtakes ------------------------------------------------------------------

  lemma OneMoreSerial(steps: seq<Step>, step: Step)
    requires Serial(steps) && (StartsTask(Run(IDLE, steps), step) ==> NoneInFlight(Run(IDLE, steps)))
    ensures Serial(steps + [step]) && Run(IDLE, steps + [step]) == Next(Run(IDLE, steps), step)
  {
    assert (steps + [step])[..|steps|] == steps;
  }

  /** A task that has ended and closed its journal row, and has yet to report. */
  function AboutToReport(s: System, kind: string, ok: bool): System {
    var t := Task(s.nextId, kind);
    s.(h := Started(s.h, t).(current := None), acts := s.acts[s.nextId := Reporting(t, ok)],
       nextId := s.nextId + 1, started := s.started + {s.nextId}, rows := s.rows + [1])
  }

  lemma FourSteps(s: System, kind: string, ok: bool)
    ensures var n := s.nextId;
            Next(Next(Next(Next(s, BeginTask(kind, false)), Launch(n, true)), EndCoroutine(n, ok)), CloseRow(n, true))
            == AboutToReport(s, kind, ok)
  {
    var n := s.nextId;
    var s' := Next(Next(s, BeginTask(kind, false)), Launch(n, true));
    assert Next(Next(s', EndCoroutine(n, ok)), CloseRow(n, true)).acts == AboutToReport(s, kind, ok).acts;
  }

  lemma RunTask(steps: seq<Step>, kind: string, ok: bool) returns (steps': seq<Step>)
    requires Serial(steps) && NoneInFlight(Run(IDLE, steps))
    ensures Serial(steps') && Run(IDLE, steps') == AboutToReport(Run(IDLE, steps), kind, ok)
  {
    var n := Run(IDLE, steps).nextId;
    OneMoreSerial(steps, BeginTask(kind, false));
    steps' := steps + [BeginTask(kind, false)];
    OneMoreSerial(steps', Launch(n, true));
    steps' := steps' + [Launch(n, true)];
    OneMoreSerial(steps', EndCoroutine(n, ok));
    steps' := steps' + [EndCoroutine(n, ok)];
    OneMoreSerial(steps', CloseRow(n, true));
    steps' := steps' + [CloseRow(n, true)];
    FourSteps(Run(IDLE, steps), kind, ok);
  }

  /** A delivery takes one event off the queue, the oldest, and changes nothing else. */
  lemma DeliverOne(s: System)
    requires s.h.updates != []
    ensures var s' := Next(s, Deliver);
            && AllEvents(s') == AllEvents(s) && |s'.h.updates| == |s.h.updates| - 1
            && s'.h.current == s.h.current && s'.h.pending == s.h.pending && s'.h.motion == s.h.motion && s'.acts == s.acts
  {
  }

  lemma {:induction false} DeliverAll(steps: seq<Step>) returns (steps': seq<Step>)
    requires Serial(steps)
    ensures Serial(steps') && Run(IDLE, steps').delivered == AllEvents(Run(IDLE, steps))
    ensures Run(IDLE, steps').h.current == Run(IDLE, steps).h.current
    decreases |Run(IDLE, steps).h.updates|
  {
    steps' := steps;
    if Run(IDLE, steps).h.updates != [] {
      OneMoreSerial(steps, Deliver);
      DeliverOne(Run(IDLE, steps));
      steps' := DeliverAll(steps + [Deliver]);
    }
  }

  /** Starting the next task once the last is no longer in flight is not enough for that: in this run the first task
      is slow to close its journal row, so the second one's report is delivered, no later task's is, and yet its waiter reads the
      first one's outcome. */
  lemma EarlierReportOvertakes(first: string, second: string, ok: bool, ok': bool) returns (steps: seq<Step>)
    ensures Serial(steps) && Run(IDLE, steps).h.current == None
    ensures ReportedAndNoneLater(Run(IDLE, steps).delivered, 1)
    ensures var c := FoldUpdates(NOTHING_SEEN, Run(IDLE, steps).delivered);
            HoldsOutcomeOf(c, 0) && c.lastResult == Some(ok)
  {
    steps := RunTask([], first, ok);
    steps := RunTask(steps, second, ok');
    OneMoreSerial(steps, Report(1));
    steps := steps + [Report(1)];
    OneMoreSerial(steps, Report(0));
    steps := steps + [Report(0)];
    TwoReports(first, second, ok, ok');
    steps := DeliverAll(steps);
  }

  lemma TwoReports(first: string, second: string, ok: bool, ok': bool)
    ensures var s := Next(Next(AboutToReport(AboutToReport(IDLE, first, ok), second, ok'), Report(1)), Report(0));
            var c := FoldUpdates(NOTHING_SEEN, AllEvents(s));
            && s.h.current == None && ReportedAndNoneLater(AllEvents(s), 1)
            && HoldsOutcomeOf(c, 0) && c.lastResult == Some(ok)
  {
    var e0, e1 := TaskEvent(None, Some(Task(0, first)), None, None), TaskEvent(None, Some(Task(1, second)), None, None);
    var e2, e3 := TaskEvent(None, None, Some(ok'), Some(Task(1, second))), TaskEvent(None, None, Some(ok), Some(Task(0, first)));
    var s := Next(Next(AboutToReport(AboutToReport(IDLE, first, ok), second, ok'), Report(1)), Report(0));
    assert AllEvents(s) == [e0, e1, e2] + [e3];
    FoldAppend(NOTHING_SEEN, [e0, e1, e2], e3);
    assert Reports(AllEvents(s)[2], 1);
  }

  // ----- waiting for a marker --------------------------------------------------------------------

  datatype RoleWait = MarkerFound | Cancelled | GaveUp | StillWaiting

  /** One poll: the confirmation pending after the sleep, whether the marker is there now, whether the deadline has
      passed, and the confirmation pending once the marker was asked for. */
  datatype RolePoll = RolePoll(pending: Option<Pending>, found: bool, expired: bool, after: Option<Pending>)

  predicate IsPending(p: Option<Pending>, id: nat) {
    p.Some? && p.value.id == id
  }

  predicate KeepsWaiting(p: RolePoll, own: nat) {
    IsPending(p.pending, own) && !p.found && !p.expired
  }

  /** Holds an alignment while its own confirmation is pending (`_await_mask_center_role`): the marker ends the wait,
      the confirmation's going cancels it, the deadline fails it. It clears a confirmation only if that is its own. */
  method AwaitMarkerRole(own: nat, polls: seq<RolePoll>) returns (outcome: RoleWait, clears: bool, n: nat)
    ensures n <= |polls| && forall j :: 0 <= j < n ==> KeepsWaiting(polls[j], own)
    ensures n < |polls| ==> !KeepsWaiting(polls[n], own)
    ensures outcome == if n == |polls| then StillWaiting
                       else if !IsPending(polls[n].pending, own) then Cancelled
                       else if polls[n].found then MarkerFound else GaveUp
    ensures clears <==> (outcome == MarkerFound || outcome == GaveUp) && IsPending(polls[n].after, own)
  {
    n := 0;
    while n < |polls|
      invariant n <= |polls| && forall j :: 0 <= j < n ==> KeepsWaiting(polls[j], own)
    {
      var poll := polls[n];
      if !IsPending(poll.pending, own) {
        return Cancelled, false, n;
      }
      if poll.found {
        return MarkerFound, IsPending(poll.after, own), n;
      }
      if poll.expired {
        return GaveUp, IsPending(poll.after, own), n;
      }
      n := n + 1;
    }
    return StillWaiting, false, n;
  }

  lemma StepKeepsResolved(s: System, step: Step, id: nat)
    requires id < s.nextId && !IsPending(s.h.pending, id)
    ensures id < Next(s, step).nextId && !IsPending(Next(s, step).h.pending, id)
  {
  }

  /** A confirmation that is no longer pending never is again, so a poll cannot miss that it was resolved. */
  lemma {:induction false} ResolvedStaysResolved(steps: seq<Step>, n: nat, id: nat)
    requires n <= |steps|
    requires var before := Run(IDLE, steps[..n]); id < before.nextId && !IsPending(before.h.pending, id)
    ensures id < Run(IDLE, steps).nextId && !IsPending(Run(IDLE, steps).h.pending, id)
  {
    if n == |steps| {
      assert steps[..n] == steps;
    } else {
      assert steps[..|steps| - 1][..n] == steps[..n];
      ResolvedStaysResolved(steps[..|steps| - 1], n, id);
      StepKeepsResolved(Run(IDLE, steps[..|steps| - 1]), steps[|steps| - 1], id);
    }
  }

  // ----- which steps change the driver, and how ------------------------------------------------------

  /** The activity under this identifier held the claim. */
  predicate HeldBy(s: System, id: nat) {
    id in s.acts && s.acts[id].Holds()
  }

  /** The claim is taken by an inline move or a moving task, if it is free; it is given up when such a move leaves, its
      start fails or its coroutine ends; and no other step touches it. */
  lemma ClaimChangesExactly(s: System, step: Step)
    ensures Next(s, step).h.motion ==
            match step
            case BeginInline(what) => if s.h.motion == None then Some(what) else s.h.motion
            case BeginTask(kind, moves) => if moves && s.h.motion == None then Some(kind) else s.h.motion
            case EndInline(id) => if HeldBy(s, id) && s.acts[id].Inline? then None else s.h.motion
            case FailStart(id) => if HeldBy(s, id) && s.acts[id].Starting? then None else s.h.motion
            case EndCoroutine(id, _) => if HeldBy(s, id) && s.acts[id].Running? then None else s.h.motion
            case _ => s.h.motion
    ensures step.BeginInline? && s.h.motion == None ==> Next(s, step).acts == s.acts[s.nextId := Inline(step.what)]
  {
  }

  /** A confirmation is set under a new identifier, and goes when it is cleared or when it is the one confirmed; no
      other step touches it. */
  lemma ConfirmationChangesExactly(s: System, step: Step)
    ensures Next(s, step).h.pending ==
            match step
            case SetPending(kind) => Some(Pending(s.nextId, kind))
            case ClearPending => None
            case Confirm(id) => if IsPending(s.h.pending, id) then None else s.h.pending
            case _ => s.h.pending
    ensures step.SetPending? ==> Next(s, step).nextId > s.nextId
  {
  }

  /** The event a step pushes, if it pushes one: what is pending and current after it, and for a report its result. */
  function PushedBy(s: System, step: Step): Option<TaskEvent> {
    var pending, current := Next(s, step).h.pending, Next(s, step).h.current;
    match step
    case Report(id) =>
      if id in s.acts && s.acts[id].Reporting? then Some(TaskEvent(pending, current, Some(s.acts[id].ok), Some(s.acts[id].task))) else None
    case BeginTask(_, _) => if StartsTask(s, step) then Some(TaskEvent(pending, current, None, None)) else None
    case SetPending(_) => Some(TaskEvent(pending, current, None, None))
    case ClearPending => Some(TaskEvent(pending, current, None, None))
    case Confirm(id) => if IsPending(s.h.pending, id) then Some(TaskEvent(pending, current, None, None)) else None
    case PushPicture => Some(TaskEvent(pending, current, None, None))
    case _ => None
  }

  /** Every start, report and change of the confirmation pushes one event with the picture after it, and nothing else
      but a picture asked for does. */
  lemma EventsExactly(s: System, step: Step)
    ensures AllEvents(Next(s, step)) == AllEvents(s) + (if PushedBy(s, step).Some? then [PushedBy(s, step).value] else [])
  {
    var s', e := Next(s, step), PushedBy(s, step);
    if e.Some? {
      assert s'.h.updates == s.h.updates + [e.value];
    }
  }

  /** The rows a task opens are closed by it, once it has ended, exactly when the database takes the close. */
  lemma RowClosesExactly(steps: seq<Step>, id: nat, stored: bool)
    requires var s := Run(IDLE, steps); id in s.acts && s.acts[id].Closing? && s.acts[id].row.Some?
    ensures var s, s' := Run(IDLE, steps), Next(Run(IDLE, steps), CloseRow(id, stored));
            var row := s.acts[id].row.value;
            row < |s.rows| && s'.rows == if stored then s.rows[row := 1] else s.rows
  {
    RowsCloseOnceAlways(steps);
  }
}
