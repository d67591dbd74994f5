/** Submitting a command script to the chamber and waiting for its completion, with any number of calls in
    flight and updates that may be lost, repeated or out of order (src/lumi/experiment/mi.py). */
module MiRunner {
  import opened Common

  datatype Execution = Execution(uuid: nat, special: bool, finished: bool, stopped: bool, aborted: bool)

  /** What one call waits on. */
  datatype Future = Unset | Set(value: Execution) | Cancelled

  type Futures = map<nat, Future>

  /** An update completes the future pending under its identifier, if that is still open and the update is final. */
  function Heard(pending: Futures, e: Execution): Futures {
    if e.uuid in pending && pending[e.uuid].Unset? && e.finished then pending[e.uuid := Set(e)] else pending
  }

  datatype Outcome = Returned(execution: Execution) | Failed(execution: Execution) | TimedOut | NotSubmitted

  /** A stopped execution always raises, an aborted one only while aborts are checked. */
  function Judged(e: Execution, checkAbort: bool): Outcome {
    if e.stopped || (e.aborted && checkAbort) then Failed(e) else Returned(e)
  }

  class MiCommandRunner {
    var pending: Futures

    constructor ()
      ensures pending == map[]
    {
      pending := map[];
    }

    method Register(uuid: nat)
      modifies this
      ensures pending == old(pending)[uuid := Unset]
    {
      pending := pending[uuid := Unset];
    }

    method OnUpdate(e: Execution)
      modifies this
      ensures pending == Heard(old(pending), e)
    {
      if e.uuid in pending {
        var future := pending[e.uuid];
        if future.Unset? && e.finished {
          pending := pending[e.uuid := Set(e)];
        }
      }
    }

    method Drop(uuid: nat)
      modifies this
      ensures pending == old(pending) - {uuid}
    {
      pending := pending - {uuid};
    }
  }

  /** The unbounded wait: each window ends with the completion or runs out, which leaves the future intact and
      logs a warning. */
  method WaitUnbounded(windows: seq<Option<Execution>>) returns (completion: Option<Execution>, warnings: nat)
    ensures warnings <= |windows|
    ensures forall j :: 0 <= j < warnings ==> windows[j].None?
    ensures if warnings < |windows| then completion == windows[warnings] && completion.Some? else completion.None?
  {
    warnings := 0;
    completion := None;
    while warnings < |windows|
      invariant warnings <= |windows|
      invariant forall j :: 0 <= j < warnings ==> windows[j].None?
      invariant completion.None?
    {
      if windows[warnings].Some? {
        completion := windows[warnings];
        return;
      }
      warnings := warnings + 1;
    }
  }

  // ----- every interleaving -----------------------------------------------------------------

  datatype Phase = Submitting | Waiting | Expired

  /** A call in flight: how many updates had arrived when it was registered, and how it waits. */
  datatype Call = Call(since: nat, bounded: bool, checkAbort: bool, phase: Phase)

  /** A call that is over, the acknowledgement that ended it if one did, and how many updates had arrived by then. */
  datatype Ended = Ended(call: Call, ack: Option<Execution>, till: nat, outcome: Outcome)

  datatype System = System(pending: Futures, calls: map<nat, Call>, nextId: nat, arrived: seq<Execution>, ended: map<nat, Ended>)

  const IDLE: System := System(map[], map[], 0, [], map[])

  datatype Step =
    | Submit(bounded: bool, checkAbort: bool)
    | SubmitFails(id: nat)
    | Acknowledge(id: nat, ack: Execution)
    | Update(e: Execution)
    | Expire(id: nat)
    | Wake(id: nat)

  /** The `finally` block pops the entry whatever the outcome. */
  function End(s: System, id: nat, ack: Option<Execution>, outcome: Outcome): System
    requires id in s.calls
  {
    s.(pending := s.pending - {id}, calls := s.calls - {id}, ended := s.ended[id := Ended(s.calls[id], ack, |s.arrived|, outcome)])
  }

  /** One step; a step that is not enabled changes nothing. An acknowledgement answers the call that
      submitted, whatever identifier it echoes. When a bounded wait runs out an open future is cancelled first, and the call wakes later. */
  function Next(s: System, step: Step): System {
    match step
    case Submit(bounded, checkAbort) =>
      s.(pending := s.pending[s.nextId := Unset], calls := s.calls[s.nextId := Call(|s.arrived|, bounded, checkAbort, Submitting)],
         nextId := s.nextId + 1)
    case SubmitFails(id) =>
      if id in s.calls && s.calls[id].phase == Submitting then End(s, id, None, NotSubmitted) else s
    case Acknowledge(id, ack) =>
      if id in s.calls && s.calls[id].phase == Submitting then
        if ack.special || ack.finished then End(s, id, Some(ack), Judged(ack, s.calls[id].checkAbort))
        else s.(calls := s.calls[id := s.calls[id].(phase := Waiting)])
      else s
    case Update(e) => s.(pending := Heard(s.pending, e), arrived := s.arrived + [e])
    case Expire(id) =>
      if id in s.calls && s.calls[id].phase == Waiting && s.calls[id].bounded && id in s.pending then
        s.(pending := s.pending[id := if s.pending[id].Unset? then Cancelled else s.pending[id]],
           calls := s.calls[id := s.calls[id].(phase := Expired)])
      else s
    case Wake(id) =>
      if id in s.calls && s.calls[id].phase == Expired then End(s, id, None, TimedOut)
      else if id in s.calls && s.calls[id].phase == Waiting && id in s.pending && s.pending[id].Set? then
        End(s, id, None, Judged(s.pending[id].value, s.calls[id].checkAbort))
      else s
  }

  function Run(s: System, steps: seq<Step>): System {
    if steps == [] then s else Next(Run(s, steps[..|steps| - 1]), steps[|steps| - 1])
  }

  /** The first final update for `id` among those that arrived. */
  function FirstCompletion(arrived: seq<Execution>, id: nat): Option<Execution> {
    if arrived == [] then None
    else
      var earlier, last := FirstCompletion(arrived[..|arrived| - 1], id), arrived[|arrived| - 1];
      if earlier.Some? then earlier else if last.uuid == id && last.finished then Some(last) else None
  }

  lemma CompletionAppend(arrived: seq<Execution>, e: Execution, id: nat)
    ensures FirstCompletion(arrived + [e], id) ==
            var earlier := FirstCompletion(arrived, id);
            if earlier.Some? then earlier else if e.uuid == id && e.finished then Some(e) else None
  {
    assert (arrived + [e])[..|arrived|] == arrived;
  }

  lemma {:induction false} CompletionIsOurs(arrived: seq<Execution>, id: nat)
    ensures var c := FirstCompletion(arrived, id); c.Some? ==> c.value.uuid == id && c.value.finished && c.value in arrived
  {
    if arrived != [] {
      CompletionIsOurs(arrived[..|arrived| - 1], id);
    }
  }

  // ----- what every run keeps ----------------------------------------------------------------

  /** The entries are exactly the calls in flight, and identifiers are never reused. */
  ghost predicate PendingIsInFlight(s: System) {
    && s.pending.Keys == s.calls.Keys
    && (forall id :: id in s.calls ==> id < s.nextId && s.calls[id].since <= |s.arrived|)
    && (forall id :: id in s.ended ==> id < s.nextId && id !in s.calls)
  }

  /** A future is open exactly while no completion has arrived since its call was registered, and otherwise
      holds the first one; only a call whose wait ran out has a cancelled future. */
  ghost predicate FutureIsFirst(future: Future, call: Call, arrived: seq<Execution>, id: nat) {
    && call.since <= |arrived|
    && var c := FirstCompletion(arrived[call.since..], id);
       match future
       case Unset => c == None
       case Set(e) => c == Some(e)
       case Cancelled => call.phase == Expired
  }

  ghost predicate FuturesAreFirst(s: System) {
    forall id :: id in s.calls && id in s.pending ==> FutureIsFirst(s.pending[id], s.calls[id], s.arrived, id)
  }

  lemma StepKeepsPending(s: System, step: Step)
    requires PendingIsInFlight(s)
    ensures PendingIsInFlight(Next(s, step))
  {
  }

  lemma UpdateKeepsFuture(s: System, e: Execution, id: nat)
    requires id in s.calls && id in s.pending && FutureIsFirst(s.pending[id], s.calls[id], s.arrived, id)
    ensures FutureIsFirst(Heard(s.pending, e)[id], s.calls[id], s.arrived + [e], id)
  {
    var since := s.calls[id].since;
    assert (s.arrived + [e])[since..] == s.arrived[since..] + [e];
    CompletionAppend(s.arrived[since..], e, id);
  }

  lemma StepKeepsFutures(s: System, step: Step)
    requires PendingIsInFlight(s) && FuturesAreFirst(s)
    ensures FuturesAreFirst(Next(s, step))
  {
    if step.Update? {
      forall id | id in s.calls
        ensures FutureIsFirst(Next(s, step).pending[id], s.calls[id], Next(s, step).arrived, id)
      {
        UpdateKeepsFuture(s, step.e, id);
      }
    } else if step.Submit? {
      assert s.arrived[|s.arrived|..] == [];
    }
  }

  /** How a call that is over may have ended. */
  ghost predicate EndedSoundly(s: System, id: nat, end: Ended) {
    && end.call.since <= end.till <= |s.arrived|
    && match end.outcome
       case TimedOut => end.call.bounded && end.ack.None?
       case NotSubmitted => end.ack.None?
       case _ =>
         var e := end.outcome.execution;
         && end.outcome == Judged(e, end.call.checkAbort)
         && (if end.ack.Some? then e == end.ack.value && (e.special || e.finished)
             else e.uuid == id && e.finished && FirstCompletion(s.arrived[end.call.since..end.till], id) == Some(e))
  }

  ghost predicate EndsAreSound(s: System) {
    forall id :: id in s.ended ==> EndedSoundly(s, id, s.ended[id])
  }

  lemma EndsSurviveUpdates(s: System, e: Execution, id: nat, end: Ended)
    requires EndedSoundly(s, id, end)
    ensures EndedSoundly(s.(pending := Heard(s.pending, e), arrived := s.arrived + [e]), id, end)
  {
    assert (s.arrived + [e])[end.call.since..end.till] == s.arrived[end.call.since..end.till];
  }

  lemma WakeEndsSoundly(s: System, id: nat)
    requires PendingIsInFlight(s) && FuturesAreFirst(s)
    requires id in s.calls && s.calls[id].phase == Waiting && s.pending[id].Set?
    ensures EndedSoundly(s, id, Ended(s.calls[id], None, |s.arrived|, Judged(s.pending[id].value, s.calls[id].checkAbort)))
  {
    assert FutureIsFirst(s.pending[id], s.calls[id], s.arrived, id);
    assert s.arrived[s.calls[id].since..|s.arrived|] == s.arrived[s.calls[id].since..];
    CompletionIsOurs(s.arrived[s.calls[id].since..], id);
  }

  /** The call ends with `outcome`, soundly. */
  lemma EndKeepsEnds(s: System, id: nat, ack: Option<Execution>, outcome: Outcome)
    requires id in s.calls && EndsAreSound(s)
    requires EndedSoundly(s, id, Ended(s.calls[id], ack, |s.arrived|, outcome))
    ensures EndsAreSound(End(s, id, ack, outcome))
  {
    var s' := End(s, id, ack, outcome);
    forall k | k in s'.ended ensures EndedSoundly(s', k, s'.ended[k]) {
      if k != id { assert EndedSoundly(s, k, s.ended[k]); }
    }
  }

  lemma SameEndsKeep(s: System, s': System)
    requires EndsAreSound(s) && s'.ended == s.ended && s'.arrived == s.arrived
    ensures EndsAreSound(s')
  {
    forall k | k in s'.ended ensures EndedSoundly(s', k, s'.ended[k]) {
      assert EndedSoundly(s, k, s.ended[k]);
    }
  }

  ghost predicate ExpiredAreBounded(s: System) {
    forall id :: id in s.calls && s.calls[id].phase == Expired ==> s.calls[id].bounded
  }

  lemma StepKeepsEnds(s: System, step: Step)
    requires PendingIsInFlight(s) && FuturesAreFirst(s) && EndsAreSound(s) && ExpiredAreBounded(s)
    ensures EndsAreSound(Next(s, step))
  {
    var s' := Next(s, step);
    match step {
      case Update(e) =>
        forall id | id in s.ended ensures EndedSoundly(s', id, s.ended[id]) {
          EndsSurviveUpdates(s, e, id, s.ended[id]);
        }
      case Wake(id) =>
        if id in s.calls && s.calls[id].phase == Waiting && s.pending[id].Set? {
          WakeEndsSoundly(s, id);
          EndKeepsEnds(s, id, None, Judged(s.pending[id].value, s.calls[id].checkAbort));
        } else if s' != s {
          EndKeepsEnds(s, id, None, TimedOut);
        }
      case SubmitFails(id) => if s' != s { EndKeepsEnds(s, id, None, NotSubmitted); }
      case Acknowledge(id, ack) =>
        if s'.ended != s.ended {
          EndKeepsEnds(s, id, Some(ack), Judged(ack, s.calls[id].checkAbort));
        } else {
          SameEndsKeep(s, s');
        }
      case _ => SameEndsKeep(s, s');
    }
  }

  lemma StepKeepsExpired(s: System, step: Step)
    requires ExpiredAreBounded(s)
    ensures ExpiredAreBounded(Next(s, step))
  {
  }

  lemma {:induction false} CallsAreSoundAlways(steps: seq<Step>)
    ensures var s := Run(IDLE, steps);
            PendingIsInFlight(s) && FuturesAreFirst(s) && EndsAreSound(s) && ExpiredAreBounded(s)
  {
    if steps != [] {
      CallsAreSoundAlways(steps[..|steps| - 1]);
      var s, step := Run(IDLE, steps[..|steps| - 1]), steps[|steps| - 1];
      StepKeepsPending(s, step);
      StepKeepsFutures(s, step);
      StepKeepsEnds(s, step);
      StepKeepsExpired(s, step);
    }
  }

  /** A call returns only a finished execution, or the special acknowledgement of its script, that was neither
      stopped nor (with aborts checked) aborted. It carries the call's own identifier exactly when an update ended
      the call or the acknowledgement that did echoes that identifier. */
  lemma ReturnsOwnExecution(steps: seq<Step>, id: nat)
    requires var s := Run(IDLE, steps); id in s.ended && s.ended[id].outcome.Returned?
    ensures var end := Run(IDLE, steps).ended[id];
            var e := end.outcome.execution;
            && (e.uuid == id <==> end.ack.None? || end.ack.value.uuid == id)
            && (e.finished || (e.special && end.ack == Some(e)))
            && !e.stopped && (e.aborted ==> !end.call.checkAbort)
  {
    CallsAreSoundAlways(steps);
    assert EndedSoundly(Run(IDLE, steps), id, Run(IDLE, steps).ended[id]);
  }

  /** The updates that arrived from `since` up to `till`. */
  function Window(arrived: seq<Execution>, since: nat, till: nat): seq<Execution> {
    if since <= till <= |arrived| then arrived[since..till] else []
  }

  lemma WakeEnds(s: System, id: nat, e: Execution)
    requires id in s.calls && s.calls[id].phase == Waiting && id in s.pending && s.pending[id] == Set(e)
    ensures Next(s, Wake(id)).ended == s.ended[id := Ended(s.calls[id], None, |s.arrived|, Judged(e, s.calls[id].checkAbort))]
  {
  }

  lemma WakeTakesCompletion(s: System, id: nat, e: Execution)
    requires PendingIsInFlight(s) && FuturesAreFirst(s) && id in s.calls && s.calls[id].phase == Waiting
    requires FirstCompletion(Window(s.arrived, s.calls[id].since, |s.arrived|), id) == Some(e)
    ensures Next(s, Wake(id)).ended == s.ended[id := Ended(s.calls[id], None, |s.arrived|, Judged(e, s.calls[id].checkAbort))]
  {
    assert s.arrived[s.calls[id].since..] == Window(s.arrived, s.calls[id].since, |s.arrived|);
    assert FutureIsFirst(s.pending[id], s.calls[id], s.arrived, id);
    WakeEnds(s, id, e);
  }

  /** A completion that arrives while its call is pending is never missed, even before the acknowledgement: a
      waiting call for which one has arrived ends, when next scheduled, with the first of them. */
  lemma CompletionIsNeverMissed(steps: seq<Step>, id: nat)
    requires var s := Run(IDLE, steps);
             && id in s.calls && s.calls[id].phase == Waiting
             && FirstCompletion(Window(s.arrived, s.calls[id].since, |s.arrived|), id).Some?
    ensures var s := Run(IDLE, steps);
            var e := FirstCompletion(Window(s.arrived, s.calls[id].since, |s.arrived|), id).value;
            var s' := Next(s, Wake(id));
            id in s'.ended && s'.ended[id].outcome == Judged(e, s.calls[id].checkAbort)
  {
    CallsAreSoundAlways(steps);
    var s := Run(IDLE, steps);
    WakeTakesCompletion(s, id, FirstCompletion(Window(s.arrived, s.calls[id].since, |s.arrived|), id).value);
  }

  /** An unbounded call that was acknowledged as still running ends only with its first completion. */
  lemma UnboundedEndsWithCompletion(steps: seq<Step>, id: nat)
    requires var s := Run(IDLE, steps);
             id in s.ended && !s.ended[id].call.bounded && s.ended[id].ack.None? && s.ended[id].outcome != NotSubmitted
    ensures var end := Run(IDLE, steps).ended[id];
            var c := FirstCompletion(Window(Run(IDLE, steps).arrived, end.call.since, end.till), id);
            c.Some? && end.outcome == Judged(c.value, end.call.checkAbort)
  {
    CallsAreSoundAlways(steps);
    assert EndedSoundly(Run(IDLE, steps), id, Run(IDLE, steps).ended[id]);
  }

  lemma StepSetsOnce(s: System, step: Step, id: nat)
    requires PendingIsInFlight(s) && id in s.pending && s.pending[id].Set?
    ensures id in Next(s, step).pending ==> Next(s, step).pending[id] == s.pending[id]
    ensures id !in Next(s, step).pending ==> id in Next(s, step).ended
  {
  }

  /** A future is set at most once: whatever step follows, it keeps its value until its call is over. */
  lemma SetOnlyOnce(steps: seq<Step>, step: Step, id: nat)
    requires id in Run(IDLE, steps).pending && Run(IDLE, steps).pending[id].Set?
    ensures var s, s' := Run(IDLE, steps), Next(Run(IDLE, steps), step);
            if id in s'.pending then s'.pending[id] == s.pending[id] else id in s'.ended
  {
    CallsAreSoundAlways(steps);
    StepSetsOnce(Run(IDLE, steps), step, id);
  }

  // ----- how a call ends, exactly ------------------------------------------------------------------

  /** An acknowledgement ends its call when it is special or already finished, and otherwise lets it wait. */
  lemma AcknowledgementEndsExactly(steps: seq<Step>, id: nat, ack: Execution)
    requires var s := Run(IDLE, steps); id in s.calls && s.calls[id].phase == Submitting
    ensures var s' := Next(Run(IDLE, steps), Acknowledge(id, ack));
            if ack.special || ack.finished then id in s'.ended && id !in s'.calls && s'.ended[id].ack == Some(ack)
            else id in s'.calls && s'.calls[id].phase == Waiting && id !in s'.ended
  {
    CallsAreSoundAlways(steps);
  }

  /** A submission starts one call as it was asked for, waiting from then on under a new identifier; an update is heard by
      the call that is open under its identifier, and counts as arrived whether or not there is one. */
  lemma SubmitsAndHears(steps: seq<Step>, bounded: bool, checkAbort: bool, e: Execution)
    ensures var s, s' := Run(IDLE, steps), Next(Run(IDLE, steps), Submit(bounded, checkAbort));
            && s.nextId !in s.calls && s.nextId !in s.ended && s'.arrived == s.arrived
            && s'.calls == s.calls[s.nextId := Call(|s.arrived|, bounded, checkAbort, Submitting)]
            && s'.pending == s.pending[s.nextId := Unset]
    ensures var s, s' := Run(IDLE, steps), Next(Run(IDLE, steps), Update(e));
            && s'.arrived == s.arrived + [e] && s'.calls == s.calls
            && s'.pending == if e.uuid in s.pending && e.finished && s.pending[e.uuid] == Unset then s.pending[e.uuid := Set(e)] else s.pending
  {
    CallsAreSoundAlways(steps);
  }

  /** A submission that fails ends its call, and drops its entry, as long as it was not acknowledged. */
  lemma FailedSubmissionEnds(steps: seq<Step>, id: nat)
    requires id in Run(IDLE, steps).calls
    ensures var s, s' := Run(IDLE, steps), Next(Run(IDLE, steps), SubmitFails(id));
            if s.calls[id].phase == Submitting then
              id in s'.ended && s'.ended[id].outcome == NotSubmitted && s'.pending.Keys == s.pending.Keys - {id} && s'.calls.Keys == s.calls.Keys - {id}
            else s' == s
  {
    CallsAreSoundAlways(steps);
  }

  /** The execution a call was ended with: the acknowledgement that ended it, or else the first completion since it
      was submitted. */
  function EndedWith(s: System, id: nat): Option<Execution>
    requires id in s.ended
  {
    var end := s.ended[id];
    if end.ack.Some? then end.ack else FirstCompletion(Window(s.arrived, end.call.since, end.till), id)
  }

  /** In every run a call that neither timed out nor failed to be submitted raises exactly when the execution it was
      ended with was stopped, or aborted while aborts are checked, and returns that execution otherwise. */
  lemma EndsExactly(steps: seq<Step>, id: nat)
    requires id in Run(IDLE, steps).ended && Run(IDLE, steps).ended[id].outcome !in {TimedOut, NotSubmitted}
    ensures var end, e := Run(IDLE, steps).ended[id], EndedWith(Run(IDLE, steps), id);
            e.Some? && end.outcome == if e.value.stopped || (end.call.checkAbort && e.value.aborted) then Failed(e.value) else Returned(e.value)
  {
    CallsAreSoundAlways(steps);
    assert EndedSoundly(Run(IDLE, steps), id, Run(IDLE, steps).ended[id]);
  }

  /** A bounded wait that runs out times out, whatever arrives before it is next scheduled; an unbounded one never
      runs out. */
  lemma TimesOutExactly(steps: seq<Step>, id: nat)
    requires var s := Run(IDLE, steps); id in s.calls && s.calls[id].phase == Waiting
    ensures var s, s' := Run(IDLE, steps), Next(Run(IDLE, steps), Expire(id));
            if !s.calls[id].bounded then s' == s
            else id in Next(s', Wake(id)).ended && Next(s', Wake(id)).ended[id].outcome == TimedOut
  {
    CallsAreSoundAlways(steps);
    if Run(IDLE, steps).calls[id].bounded { ExpiredTimesOut(Run(IDLE, steps), id); }
  }

  lemma ExpiredTimesOut(s: System, id: nat)
    requires PendingIsInFlight(s) && id in s.calls && s.calls[id].phase == Waiting && s.calls[id].bounded
    ensures var s' := Next(s, Expire(id)); id in Next(s', Wake(id)).ended && Next(s', Wake(id)).ended[id].outcome == TimedOut
  {
  }
}
