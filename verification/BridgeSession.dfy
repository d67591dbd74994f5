/** One browser's session at the bridge: which stream clients it holds, and when each is released
    (src/lumi/api/bridge.py, lines 173-403). */
module BridgeSession {
  import opened Common
  import opened Contracts
  import opened Policy

  // ----- what a subscription means --------------------------------------------------------------

  datatype Channel = StreamChannel | UpdateChannel

  /** The stream if the name is the stream's, otherwise the update channel whatever the name. */
  function ChannelFor(cap: Capability, stream: string): Option<Channel> {
    if cap.stream.Some? && cap.stream.value.name == stream then Some(StreamChannel)
    else if cap.update.Some? then Some(UpdateChannel)
    else None
  }

  function ChannelKey(d: Declared, c: Channel): string {
    if c == StreamChannel then d.K().publish else d.K().update
  }

  /** Two names reach two channels of one capability exactly when it has both a stream and an update channel. */
  lemma ChannelsClashExactly(cap: Capability)
    ensures (exists a, b :: ChannelFor(cap, a).Some? && ChannelFor(cap, b).Some? && ChannelFor(cap, a) != ChannelFor(cap, b))
            <==> cap.stream.Some? && cap.update.Some?
  {
    if cap.stream.Some? && cap.update.Some? {
      var name := cap.stream.value.name;
      assert ChannelFor(cap, name) == Some(StreamChannel) && ChannelFor(cap, name + "x") == Some(UpdateChannel);
    }
  }

  /** So for a valid capability keying by target loses nothing: what a second subscription to the target replaces
      was on the same channel. */
  lemma SameTargetSameChannel(cap: Capability, a: string, b: string)
    requires CapabilityIsValid(cap) && ChannelFor(cap, a).Some? && ChannelFor(cap, b).Some?
    ensures ChannelFor(cap, a) == ChannelFor(cap, b)
  {
    OneChannelAtMost(cap);
  }

  /** The capability behind a target; a later declaration of the same target replaces an earlier one. */
  function Resolve(ds: seq<Declared>, target: string): Option<Declared> {
    if ds == [] then None
    else
      var last := ds[|ds| - 1];
      if last.equipment + "." + last.cap.name == target then Some(last) else Resolve(ds[..|ds| - 1], target)
  }

  datatype Verdict = UnknownTarget | NoStream | Forbidden | Raised | Go(channel: Channel)

  /** What the bridge decides before it makes a client. */
  function Decide(registry: seq<EquipmentContract>, role: string, target: string, stream: string): Verdict {
    match Resolve(AllCapabilities(registry), target)
    case None => UnknownTarget
    case Some(d) =>
      match ChannelFor(d.cap, stream)
      case None => NoStream
      case Some(c) =>
        match PermitsRead(registry, role, d.exchange, ChannelKey(d, c))
        case Err(_) => Raised
        case Ok(allowed) => if allowed then Go(c) else Forbidden
  }

  datatype RequestVerdict =
    | TooLarge | UnknownRequest | NotPermitted | Crashed
    | NoSuchOp | Unreadable | Acknowledged | Forwarded

  /** The control verbs the bridge has a call for; any other one is acknowledged and goes no further. */
  const BUS_VERBS: set<string> := {"state", "start", "stop"}

  /** What becomes of a request that is permitted: its op is looked up, its body read as that op's request, and it is
      sent on. `readable` says whether the body and payload read as such a request. */
  function Dispatch(cap: Capability, op: string, control: bool, readable: bool): RequestVerdict {
    if control then (if op in BUS_VERBS then Forwarded else Acknowledged)
    else if !HasOp(cap, op) then NoSuchOp
    else if !readable then Unreadable
    else Forwarded
  }

  /** What the bridge does with a request: an oversized payload is refused before anything else, then an unknown
      target, then what the role may not publish; the rest is dispatched. */
  function DecideRequest(registry: seq<EquipmentContract>, role: string, target: string, op: string, control: bool,
                         readable: bool, size: nat, limit: nat): RequestVerdict
  {
    if size > limit then TooLarge
    else
      match Resolve(AllCapabilities(registry), target)
      case None => UnknownRequest
      case Some(d) =>
        match Permits(registry, role, d.exchange, if control then d.K().Control(op) else d.K().Request(op))
        case Err(_) => Crashed
        case Ok(allowed) => if allowed then Dispatch(d.cap, op, control, readable) else NotPermitted
  }

  // ----- the session -----------------------------------------------------------------------------

  /** How a stream client comes out: its channel does not open; or what follows raises, be it declaring the exchange,
      starting the client or subscribing it, and leaves the channel open; or it is ready. */
  datatype Making = NoChannel | Abandoned | Ready

  /** Clients are numbered as their channels are opened; `released` counts how often each was released. */
  datatype Session = Session(held: map<string, nat>, made: nat, released: multiset<nat>, closed: bool, sent: nat)

  const OPENED: Session := Session(map[], 0, multiset{}, false, 0)

  function Subscribed(s: Session, target: string): Session {
    s.(held := s.held[target := s.made], made := s.made + 1,
       released := s.released + (if target in s.held then multiset{s.held[target]} else multiset{}))
  }

  function Unsubscribed(s: Session, target: string): Session {
    s.(held := s.held - {target}, released := s.released + (if target in s.held then multiset{s.held[target]} else multiset{}))
  }

  /** Nothing is sent once the session is closed, and a send that fails closes it. */
  function Sent(s: Session, ok: bool): Session {
    if s.closed then s else if ok then s.(sent := s.sent + 1) else s.(closed := true)
  }

  function CleanedUp(s: Session): Session {
    s.(closed := true, held := map[], released := s.released + multiset(s.held.Values))
  }

  ghost predicate HeldOnce(held: map<string, nat>) {
    forall a, b :: a in held && b in held && held[a] == held[b] ==> a == b
  }

  lemma OneMore(done: set<nat>, client: nat)
    requires client !in done
    ensures multiset(done + {client}) == multiset(done) + multiset{client}
  {
  }

  class Bridge {
    const registry: seq<EquipmentContract>
    const role: string
    var held: map<string, nat>
    var made: nat
    var released: multiset<nat>
    var closed: bool
    var sent: nat

    function View(): Session
      reads this
    {
      Session(held, made, released, closed, sent)
    }

    constructor (registry: seq<EquipmentContract>, role: string)
      ensures View() == OPENED && this.registry == registry && this.role == role
    {
      this.registry, this.role := registry, role;
      held, made, released, closed, sent := map[], 0, multiset{}, false, 0;
    }

    /** Tearing a client down never fails for the caller: what goes wrong is logged. */
    method Release(client: nat)
      modifies this`released
      ensures released == old(released) + multiset{client}
    {
      released := released + multiset{client};
    }

    method Send(ok: bool)
      modifies this`closed, this`sent
      ensures View() == Sent(old(View()), ok)
    {
      if closed {
        return;
      }
      if ok {
        sent := sent + 1;
      } else {
        closed := true;
      }
    }

    /** The new client takes the target's place; the one it replaces is released. */
    method Hold(target: string, client: nat)
      modifies this`held, this`released
      ensures held == old(held)[target := client]
      ensures released == old(released) + (if target in old(held) then multiset{old(held)[target]} else multiset{})
    {
      var previous := if target in held then Some(held[target]) else None;
      held := held[target := client];
      if previous.Some? {
        Release(previous.value);
      }
    }

    /** A client that does not come out ready raises out of the frame's handler. An error reply is sent with success
        `sends`. */
    method Subscribe(target: string, stream: string, making: Making, sends: bool) returns (verdict: Verdict)
      modifies this
      ensures verdict == Decide(registry, role, target, stream)
      ensures View() == match verdict
                        case Go(_) =>
                          (match making
                           case NoChannel => old(View())
                           case Abandoned => old(View()).(made := old(made) + 1)
                           case Ready => Subscribed(old(View()), target))
                        case Raised => old(View())
                        case _ => Sent(old(View()), sends)
    {
      verdict := Decide(registry, role, target, stream);
      if verdict.Raised? {
        return;
      }
      if !verdict.Go? {
        Send(sends);
        return;
      }
      if making == NoChannel {
        return;
      }
      var client := made;
      made := made + 1;
      if making == Ready {
        Hold(target, client);
      }
    }

    method Unsubscribe(target: string)
      modifies this
      ensures View() == Unsubscribed(old(View()), target)
    {
      if target in held {
        var client := held[target];
        held := held - {target};
        Release(client);
      } else {
        assert held - {target} == held;
      }
    }

    /** Every request that is decided gets one reply, an error, an acknowledgement or the bus's answer, sent with success `sends`. */
    method Request(target: string, op: string, control: bool, readable: bool, size: nat, limit: nat, sends: bool)
      returns (verdict: RequestVerdict)
      modifies this`closed, this`sent
      ensures verdict == DecideRequest(registry, role, target, op, control, readable, size, limit)
      ensures View() == if verdict.Crashed? then old(View()) else Sent(old(View()), sends)
    {
      verdict := DecideRequest(registry, role, target, op, control, readable, size, limit);
      if !verdict.Crashed? {
        Send(sends);
      }
    }

    method ReleaseAll(clients: set<nat>)
      modifies this`released
      ensures released == old(released) + multiset(clients)
    {
      var rest := clients;
      ghost var done: set<nat> := {};
      while rest != {}
        invariant done + rest == clients && done !! rest
        invariant released == old(released) + multiset(done)
        decreases |rest|
      {
        var client :| client in rest;
        OneMore(done, client);
        Release(client);
        rest, done := rest - {client}, done + {client};
      }
      assert done == clients;
    }

    /** Closes the session, lets go of every entry, then releases them. */
    method Cleanup()
      requires HeldOnce(held)
      modifies this
      ensures View() == CleanedUp(old(View()))
    {
      closed := true;
      var entries := held.Values;
      held := map[];
      ReleaseAll(entries);
    }
  }

  // ----- runs -------------------------------------------------------------------------------------

  datatype Step =
    | SubscribeTo(target: string, stream: string, making: Making, sends: bool)
    | UnsubscribeFrom(target: string)
    | SendFrame(ok: bool)
    | CleanUp

  /** The session, the clients abandoned with their channels open, and whether it is over. */
  datatype Run = Run(session: Session, leaked: set<nat>, over: bool)

  const START: Run := Run(OPENED, {}, false)

  function Decided(r: Run, verdict: Verdict, target: string, making: Making, sends: bool): Run {
    match verdict
    case Go(_) =>
      (match making
       case NoChannel => r
       case Abandoned => r.(session := r.session.(made := r.session.made + 1), leaked := r.leaked + {r.session.made})
       case Ready => r.(session := Subscribed(r.session, target)))
    case Raised => r
    case _ => r.(session := Sent(r.session, sends))
  }

  /** One step of a session; once it has cleaned up it takes no more frames, but forwarding may still try to send. */
  function Next(registry: seq<EquipmentContract>, role: string, r: Run, step: Step): Run {
    match step
    case SubscribeTo(target, stream, making, sends) =>
      if r.over then r else Decided(r, Decide(registry, role, target, stream), target, making, sends)
    case UnsubscribeFrom(target) => if r.over then r else r.(session := Unsubscribed(r.session, target))
    case SendFrame(ok) => r.(session := Sent(r.session, ok))
    case CleanUp => if r.over then r else r.(session := CleanedUp(r.session), over := true)
  }

  function After(registry: seq<EquipmentContract>, role: string, steps: seq<Step>): Run {
    if steps == [] then START
    else Next(registry, role, After(registry, role, steps[..|steps| - 1]), steps[|steps| - 1])
  }

  ghost predicate IsHeld(s: Session, client: nat) {
    exists target :: target in s.held && s.held[target] == client
  }

  /** Where a client is: held under a target, released once, or leaked; and only one of these. */
  ghost predicate AccountedFor(r: Run, client: nat) {
    if IsHeld(r.session, client) then r.session.released[client] == 0 && client !in r.leaked
    else if client in r.leaked then r.session.released[client] == 0
    else r.session.released[client] == 1
  }

  ghost predicate Owned(r: Run) {
    && HeldOnce(r.session.held)
    && (forall target :: target in r.session.held ==> r.session.held[target] < r.session.made)
    && (forall client: nat :: client < r.session.made ==> AccountedFor(r, client))
    && (forall client: nat :: client >= r.session.made ==> r.session.released[client] == 0 && client !in r.leaked)
    && (r.over ==> r.session.held == map[] && r.session.closed)
  }

  lemma SubscribedKeeps(r: Run, target: string)
    requires Owned(r) && !r.over
    ensures Owned(r.(session := Subscribed(r.session, target)))
  {
    var s, s' := r.session, Subscribed(r.session, target);
    var r' := r.(session := s');
    assert target in s'.held && s'.held[target] == s.made;
    forall client: nat | client < s'.made ensures AccountedFor(r', client) {
      if client < s.made {
        assert AccountedFor(r, client);
        OthersStayHeld(s.held, s'.held, target, client);
        if target in s.held && s.held[target] == client {
          assert IsHeld(s, client) && !IsHeld(s', client);
        } else if IsHeld(s, client) {
          assert IsHeld(s', client);
        }
      }
    }
  }

  lemma OthersStayHeld(held: map<string, nat>, held': map<string, nat>, target: string, client: nat)
    requires forall t :: t != target ==> (t in held <==> t in held') && (t in held ==> held[t] == held'[t])
    ensures (exists t :: t in held && t != target && held[t] == client) <==> (exists t :: t in held' && t != target && held'[t] == client)
  {
  }

  lemma UnsubscribedKeeps(r: Run, target: string)
    requires Owned(r) && !r.over
    ensures Owned(r.(session := Unsubscribed(r.session, target)))
  {
    var s, s' := r.session, Unsubscribed(r.session, target);
    var r' := r.(session := s');
    forall client: nat | client < s'.made ensures AccountedFor(r', client) {
      assert AccountedFor(r, client);
      OthersStayHeld(s.held, s'.held, target, client);
      if target in s.held && s.held[target] == client {
        assert IsHeld(s, client) && !IsHeld(s', client);
      } else if IsHeld(s, client) {
        assert IsHeld(s', client);
      }
    }
  }

  lemma LeakKeeps(r: Run)
    requires Owned(r) && !r.over
    ensures Owned(r.(session := r.session.(made := r.session.made + 1), leaked := r.leaked + {r.session.made}))
  {
    var r' := r.(session := r.session.(made := r.session.made + 1), leaked := r.leaked + {r.session.made});
    forall client: nat | client < r'.session.made ensures AccountedFor(r', client) {
      if client < r.session.made {
        assert AccountedFor(r, client);
        assert IsHeld(r.session, client) <==> IsHeld(r'.session, client);
      } else {
        assert !IsHeld(r'.session, client);
      }
    }
  }

  lemma CleanedUpKeeps(r: Run)
    requires Owned(r)
    ensures Owned(r.(session := CleanedUp(r.session), over := true))
  {
    var r' := r.(session := CleanedUp(r.session), over := true);
    forall client: nat | client < r'.session.made ensures AccountedFor(r', client) {
      assert AccountedFor(r, client);
      assert client in r.session.held.Values <==> IsHeld(r.session, client);
    }
  }

  lemma SentKeeps(r: Run, ok: bool)
    requires Owned(r)
    ensures Owned(r.(session := Sent(r.session, ok)))
  {
    var r' := r.(session := Sent(r.session, ok));
    forall client: nat | client < r'.session.made ensures AccountedFor(r', client) {
      assert AccountedFor(r, client);
      assert IsHeld(r.session, client) <==> IsHeld(r'.session, client);
    }
  }

  lemma DecidedKeeps(r: Run, verdict: Verdict, target: string, making: Making, sends: bool)
    requires Owned(r) && !r.over
    ensures Owned(Decided(r, verdict, target, making, sends))
  {
    if verdict.Go? {
      match making {
        case NoChannel =>
        case Abandoned => LeakKeeps(r);
        case Ready => SubscribedKeeps(r, target);
      }
    } else if !verdict.Raised? {
      SentKeeps(r, sends);
    }
  }

  lemma StepKeeps(registry: seq<EquipmentContract>, role: string, r: Run, step: Step)
    requires Owned(r)
    ensures Owned(Next(registry, role, r, step))
  {
    match step {
      case SubscribeTo(target, stream, making, sends) =>
        if !r.over { DecidedKeeps(r, Decide(registry, role, target, stream), target, making, sends); }
      case UnsubscribeFrom(target) => if !r.over { UnsubscribedKeeps(r, target); }
      case SendFrame(ok) => SentKeeps(r, ok);
      case CleanUp => if !r.over { CleanedUpKeeps(r); }
    }
  }

  /** In every run each client made is held under one target, or released once, or was abandoned with its
      channel open; and a session that is over holds none. */
  lemma {:induction false} OwnedAlways(registry: seq<EquipmentContract>, role: string, steps: seq<Step>)
    ensures Owned(After(registry, role, steps))
  {
    if steps != [] {
      OwnedAlways(registry, role, steps[..|steps| - 1]);
      StepKeeps(registry, role, After(registry, role, steps[..|steps| - 1]), steps[|steps| - 1]);
    }
  }

  ghost predicate NoneAbandoned(steps: seq<Step>) {
    forall i :: 0 <= i < |steps| && steps[i].SubscribeTo? ==> steps[i].making != Abandoned
  }

  lemma {:induction false} NothingLeaks(registry: seq<EquipmentContract>, role: string, steps: seq<Step>)
    requires NoneAbandoned(steps)
    ensures After(registry, role, steps).leaked == {}
  {
    if steps != [] {
      NothingLeaks(registry, role, steps[..|steps| - 1]);
    }
  }

  /** When nothing raises once a channel is open, a session that is over has released every client it made exactly once. */
  lemma AllReleasedInTheEnd(registry: seq<EquipmentContract>, role: string, steps: seq<Step>, client: nat)
    requires NoneAbandoned(steps) && After(registry, role, steps).over && client < After(registry, role, steps).session.made
    ensures After(registry, role, steps).session.held == map[] && After(registry, role, steps).session.released[client] == 1
  {
    OwnedAlways(registry, role, steps);
    NothingLeaks(registry, role, steps);
    var r := After(registry, role, steps);
    assert AccountedFor(r, client) && !IsHeld(r.session, client);
  }

  /** A client abandoned like that is never released, not even by the clean-up. */
  lemma LeakedIsNeverReleased(registry: seq<EquipmentContract>, role: string, steps: seq<Step>, client: nat)
    requires client in After(registry, role, steps).leaked
    ensures After(registry, role, steps).session.released[client] == 0 && !IsHeld(After(registry, role, steps).session, client)
  {
    OwnedAlways(registry, role, steps);
    assert client < After(registry, role, steps).session.made ==> AccountedFor(After(registry, role, steps), client);
  }

  /** Once closed a session stays closed and sends nothing more. */
  lemma ClosedIsFinal(registry: seq<EquipmentContract>, role: string, r: Run, step: Step)
    requires r.session.closed
    ensures Next(registry, role, r, step).session.closed && Next(registry, role, r, step).session.sent == r.session.sent
  {
  }

  // ----- what a frame does to the session ---------------------------------------------------------

  ghost predicate OthersAsBefore(before: map<string, nat>, after: map<string, nat>, target: string) {
    forall t :: t != target ==> (t in after <==> t in before) && (t in before ==> after[t] == before[t])
  }

  /** In every run a subscription that is granted and comes out ready leaves its new client held under the target; the one
      it replaces is released; and every other target keeps its client. */
  lemma SubscribingHolds(registry: seq<EquipmentContract>, role: string, steps: seq<Step>, target: string, stream: string, sends: bool)
    requires !After(registry, role, steps).over && Decide(registry, role, target, stream).Go?
    ensures var s, s' := After(registry, role, steps).session,
                         Next(registry, role, After(registry, role, steps), SubscribeTo(target, stream, Ready, sends)).session;
            && target in s'.held && s'.held[target] == s.made && s'.made == s.made + 1 && s'.released[s.made] == 0
            && OthersAsBefore(s.held, s'.held, target)
            && (target in s.held ==> s'.released[s.held[target]] == 1)
  {
    OwnedAlways(registry, role, steps);
    var r := After(registry, role, steps);
    if target in r.session.held {
      assert IsHeld(r.session, r.session.held[target]) && AccountedFor(r, r.session.held[target]);
    }
  }

  /** Unsubscribing lets go of the target's client and releases it, and keeps the others. */
  lemma UnsubscribingReleases(registry: seq<EquipmentContract>, role: string, steps: seq<Step>, target: string)
    requires !After(registry, role, steps).over
    ensures var s, s' := After(registry, role, steps).session,
                         Next(registry, role, After(registry, role, steps), UnsubscribeFrom(target)).session;
            && target !in s'.held && OthersAsBefore(s.held, s'.held, target) && s'.made == s.made
            && (target in s.held ==> s'.released[s.held[target]] == 1)
            && (target !in s.held ==> s' == s)
  {
    OwnedAlways(registry, role, steps);
    var r := After(registry, role, steps);
    if target in r.session.held {
      assert IsHeld(r.session, r.session.held[target]) && AccountedFor(r, r.session.held[target]);
    }
  }

  /** A subscription that is refused is answered, one that raises is not, and neither makes or releases a client. */
  lemma RefusedSubscriptionsHoldNothing(registry: seq<EquipmentContract>, role: string, r: Run, target: string, stream: string,
                                        making: Making, sends: bool)
    requires !r.over && !Decide(registry, role, target, stream).Go?
    ensures var r' := Next(registry, role, r, SubscribeTo(target, stream, making, sends));
            && r'.leaked == r.leaked && r'.session.(sent := r.session.sent, closed := r.session.closed) == r.session
            && r'.session.sent == r.session.sent
               + (if Decide(registry, role, target, stream) != Raised && !r.session.closed && sends then 1 else 0)
  {
  }

  /** A send that goes through counts, one that fails closes the session, and a closed session tries none. */
  lemma SendsExactly(registry: seq<EquipmentContract>, role: string, r: Run, ok: bool)
    ensures var s, s' := r.session, Next(registry, role, r, SendFrame(ok)).session;
            && (s'.closed <==> s.closed || !ok) && s'.sent == s.sent + (if ok && !s.closed then 1 else 0)
            && s'.held == s.held && s'.released == s.released && s'.made == s.made
  {
  }

  /** A granted subscription whose channel does not open changes nothing; one abandoned after that leaves one more client
      leaked, and every target its client. */
  lemma FailedSubscriptionsExactly(registry: seq<EquipmentContract>, role: string, r: Run, target: string, stream: string, sends: bool)
    requires !r.over && Decide(registry, role, target, stream).Go?
    ensures Next(registry, role, r, SubscribeTo(target, stream, NoChannel, sends)) == r
    ensures var r' := Next(registry, role, r, SubscribeTo(target, stream, Abandoned, sends));
            && r'.leaked == r.leaked + {r.session.made} && r'.session.made == r.session.made + 1
            && r'.session.held == r.session.held && r'.session.released == r.session.released
  {
  }

  /** In every run cleaning up closes the session, holds nothing and has released once each client that was held; after it
      no frame is taken. */
  lemma CleaningUpEnds(registry: seq<EquipmentContract>, role: string, steps: seq<Step>, step: Step)
    requires !After(registry, role, steps).over
    ensures var r, r' := After(registry, role, steps), Next(registry, role, After(registry, role, steps), CleanUp);
            && r'.over && r'.session.closed && r'.session.held == map[]
            && (forall t :: t in r.session.held ==> r'.session.released[r.session.held[t]] == 1)
            && (step.SubscribeTo? || step.UnsubscribeFrom? || step.CleanUp? ==> Next(registry, role, r', step) == r')
  {
    OwnedAlways(registry, role, steps);
    var r, r' := After(registry, role, steps), Next(registry, role, After(registry, role, steps), CleanUp);
    CleanedUpKeeps(r);
    forall t | t in r.session.held ensures r'.session.released[r.session.held[t]] == 1 {
      assert IsHeld(r.session, r.session.held[t]) && AccountedFor(r, r.session.held[t]);
      assert AccountedFor(r', r.session.held[t]);
    }
  }
}
