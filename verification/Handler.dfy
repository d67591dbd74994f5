/** The experiment driver's own state -- the motion claim, the current task, the pending confirmation and the
    update queue -- and the pieces of its methods that run without suspending
    (src/lumi/experiment/handlers.py). */
module Handler {
  import opened Common

  datatype Task = Task(id: nat, kind: string)

  datatype Pending = Pending(id: nat, kind: string)

  /** What a push tells the clients: the whole picture, and for a finished task its outcome. */
  datatype TaskEvent = TaskEvent(pending: Option<Pending>, current: Option<Task>, result: Option<bool>, finished: Option<Task>)

  datatype State = State(motion: Option<string>, current: Option<Task>, pending: Option<Pending>, updates: seq<TaskEvent>)

  const INITIAL: State := State(None, None, None, [])

  // ----- the atomic pieces, on values -------------------------------------------------

  function Pushed(s: State, result: Option<bool>, finished: Option<Task>): State {
    s.(updates := s.updates + [TaskEvent(s.pending, s.current, result, finished)])
  }

  /** The first piece of `_start_task`: the task becomes current and the clients are told. */
  function Started(s: State, t: Task): State {
    Pushed(s.(current := Some(t)), None, None)
  }

  /** The runner's first piece after its coroutine ends: a moving task drops the claim, and the current task clears. */
  function Ended(s: State, moves: bool): State {
    s.(motion := if moves then None else s.motion, current := None)
  }

  function WithPending(s: State, p: Option<Pending>): State {
    Pushed(s.(pending := p), None, None)
  }

  /** The driver object itself. */
  class ExperimentHandler {
    var motion: Option<string>
    var current: Option<Task>
    var pending: Option<Pending>
    var updates: seq<TaskEvent>

    function View(): State
      reads this
    {
      State(motion, current, pending, updates)
    }

    constructor ()
      ensures View() == INITIAL
    {
      motion, current, pending, updates := None, None, None, [];
    }

    /** Refuses to start a move while another is still running. */
    method ClaimMotion(what: string) returns (ok: bool)
      modifies this`motion
      ensures ok <==> old(motion).None?
      ensures motion == if ok then Some(what) else old(motion)
    {
      if motion.Some? {
        return false;
      }
      motion := Some(what);
      return true;
    }

    method ReleaseMotion()
      modifies this`motion
      ensures motion == None
    {
      motion := None;
    }

    method Push(result: Option<bool>, finished: Option<Task>)
      modifies this`updates
      ensures View() == Pushed(old(View()), result, finished)
    {
      updates := updates + [TaskEvent(pending, current, result, finished)];
    }

    /** `_start_moving_task` or `_start_task` up to where the journal may suspend it. A moving task that cannot
        have the claim is refused with nothing changed. */
    method StartTask(t: Task, moves: bool) returns (ok: bool)
      modifies this
      ensures ok <==> !moves || old(motion).None?
      ensures View() == if !ok then old(View())
                        else Started(if moves then old(View()).(motion := Some(t.kind)) else old(View()), t)
    {
      if moves {
        ok := ClaimMotion(t.kind);
        if !ok {
          return false;
        }
      }
      current := Some(t);
      Push(None, None);
      ok := true;
    }

    /** The runner once its coroutine has ended, up to where closing the journal row may suspend it. */
    method EndTask(moves: bool)
      modifies this
      ensures View() == Ended(old(View()), moves)
    {
      if moves {
        ReleaseMotion();
      }
      current := None;
    }

    method SetPending(p: Pending)
      modifies this
      ensures View() == WithPending(old(View()), Some(p))
    {
      pending := Some(p);
      Push(None, None);
    }

    method ClearPending()
      modifies this
      ensures View() == WithPending(old(View()), None)
    {
      pending := None;
      Push(None, None);
    }

    /** Resolves the pending confirmation if it is the one named; anything else is an error that changes nothing. */
    method Confirm(id: nat) returns (ok: bool)
      modifies this
      ensures ok <==> old(pending).Some? && old(pending).value.id == id
      ensures View() == if ok then WithPending(old(View()), None) else old(View())
    {
      if pending.None? || pending.value.id != id {
        return false;
      }
      ClearPending();
      return true;
    }

    /** Takes the oldest queued event, if there is one. */
    method NextUpdate() returns (event: Option<TaskEvent>)
      modifies this`updates
      ensures old(updates) == [] ==> event == None && updates == []
      ensures old(updates) != [] ==> event == Some(old(updates)[0]) && updates == old(updates)[1..]
    {
      if updates == [] {
        return None;
      }
      event := Some(updates[0]);
      updates := updates[1..];
    }
  }

  // ----- a client's view -----------------------------------------------------------------

  /** What a session knows of the driver (src/lumi/experiment/client.py): the last event it folded, the last result
      it saw, and the task that result is of. The session itself keeps the result alone. */
  datatype ClientView = ClientView(pending: Option<Pending>, current: Option<Task>, lastResult: Option<bool>, lastFinished: Option<Task>)

  const NOTHING_SEEN: ClientView := ClientView(None, None, None, None)

  function OnUpdate(c: ClientView, e: TaskEvent): ClientView {
    ClientView(e.pending, e.current, if e.result.Some? then e.result else c.lastResult,
               if e.result.Some? then e.finished else c.lastFinished)
  }

  function FoldUpdates(c: ClientView, events: seq<TaskEvent>): ClientView {
    if events == [] then c else OnUpdate(FoldUpdates(c, events[..|events| - 1]), events[|events| - 1])
  }

  /** The session object: each update overwrites what it holds; a result is kept until the next one. */
  class ExperimentSession {
    var pending: Option<Pending>
    var currentTask: Option<Task>
    var lastTaskResult: Option<bool>
    ghost var lastFinished: Option<Task>

    ghost function View(): ClientView
      reads this
    {
      ClientView(pending, currentTask, lastTaskResult, lastFinished)
    }

    constructor ()
      ensures View() == NOTHING_SEEN
    {
      pending, currentTask, lastTaskResult := None, None, None;
      lastFinished := None;
    }

    method HandleUpdate(e: TaskEvent)
      modifies this
      ensures View() == OnUpdate(old(View()), e)
    {
      pending, currentTask := e.pending, e.current;
      if e.result.Some? {
        lastTaskResult := e.result;
        lastFinished := e.finished;
      }
    }
  }

  lemma FoldAppend(c: ClientView, events: seq<TaskEvent>, e: TaskEvent)
    ensures FoldUpdates(c, events + [e]) == OnUpdate(FoldUpdates(c, events), e)
  {
    assert (events + [e])[..|events|] == events;
  }

  /** A session's picture is the last event's, and the result it keeps is that of the last event that brought one, with
      none if none did. */
  ghost predicate KeepsLast(c: ClientView, events: seq<TaskEvent>) {
    && (if events == [] then c.pending == None && c.current == None
        else c.pending == events[|events| - 1].pending && c.current == events[|events| - 1].current)
    && (if exists k :: 0 <= k < |events| && IsLastResult(events, k)
        then forall k :: 0 <= k < |events| && IsLastResult(events, k) ==> c.lastResult == events[k].result && c.lastFinished == events[k].finished
        else c.lastResult == None && c.lastFinished == None)
  }

  ghost predicate IsLastResult(events: seq<TaskEvent>, k: nat)
    requires k < |events|
  {
    events[k].result.Some? && forall j :: k < j < |events| ==> events[j].result.None?
  }

  lemma OneMoreKept(c: ClientView, events: seq<TaskEvent>, e: TaskEvent)
    requires KeepsLast(c, events)
    ensures KeepsLast(OnUpdate(c, e), events + [e])
  {
    var all := events + [e];
    assert forall k :: 0 <= k < |events| ==> all[k] == events[k];
    if e.result.Some? {
      assert IsLastResult(all, |events|);
    } else {
      forall k | 0 <= k < |events| ensures IsLastResult(all, k) <==> IsLastResult(events, k) {
        assert all[k] == events[k] && all[|events|] == e;
      }
    }
  }

  /** So it is for every sequence of events. */
  lemma {:induction false} FoldKeepsLast(events: seq<TaskEvent>)
    ensures KeepsLast(FoldUpdates(NOTHING_SEEN, events), events)
  {
    if events != [] {
      var before, last := events[..|events| - 1], events[|events| - 1];
      FoldKeepsLast(before);
      OneMoreKept(FoldUpdates(NOTHING_SEEN, before), before, last);
      assert events == before + [last];
    }
  }
}
