/** The browser's end of the bridge connection: calls correlated with replies on an identifier, with timeouts and
    socket close (the emitted `LumiTransport`, src/lumi/codegen/ts_client.py, lines 62-174). */
module Transport {
  import opened Common
  import opened Framing

  // ----- identifiers ------------------------------------------------------------------------

  /** A number in decimal, as a template literal prints it. */
  function Decimal(n: nat): (text: string)
    ensures |text| > 0
  {
    if n < 10 then [Digit(n)] else Decimal(n / 10) + [Digit(n % 10)]
  }

  lemma {:induction false} DecimalInjective(m: nat, n: nat)
    requires Decimal(m) == Decimal(n)
    ensures m == n
  {
    var a, b := Decimal(m), Decimal(n);
    assert a[|a| - 1] == b[|b| - 1] && a[..|a| - 1] == b[..|b| - 1];
    LastDigit(m);
    LastDigit(n);
    if m >= 10 && n >= 10 {
      DecimalInjective(m / 10, n / 10);
    }
  }

  lemma LastDigit(n: nat)
    ensures var a := Decimal(n);
            a[|a| - 1] == Digit(n % 10) && a[..|a| - 1] == if n < 10 then "" else Decimal(n / 10)
  {
  }

  function CallId(n: nat): string {
    "c" + Decimal(n)
  }

  lemma CallIdInjective(m: nat, n: nat)
    requires CallId(m) == CallId(n)
    ensures m == n
  {
    assert CallId(m)[1..] == Decimal(m) && CallId(n)[1..] == Decimal(n);
    DecimalInjective(m, n);
  }

  // ----- messages ------------------------------------------------------------------------------

  datatype Ask = Ask(target: string, op: string, control: bool, body: string, payload: Bytes)

  datatype Answer = ErrorAnswer(text: string) | MetaAnswer(meta: string, bytes: Bytes) | BodyAnswer(body: string)

  /** What the bridge sends: a stream frame, or an answer under the identifier it echoes, if it has one. */
  datatype Message = StreamFrame(target: string, stream: string) | Reply(correlation: Option<string>, answer: Answer)

  datatype Reason = NotOpen | TimedOut | SocketClosed | Remote(text: string)

  datatype Outcome = ResolvedMeta(meta: string, bytes: Bytes) | ResolvedBody(body: string) | Rejected(reason: Reason)

  function OutcomeOf(a: Answer): Outcome {
    match a
    case ErrorAnswer(text) => Rejected(Remote(text))
    case MetaAnswer(meta, bytes) => ResolvedMeta(meta, bytes)
    case BodyAnswer(body) => ResolvedBody(body)
  }

  // ----- the transport -------------------------------------------------------------------------

  datatype ReadyState = Connecting | Open | Closing | Closed

  /** Promise `n` is that of the `n`-th call, with every outcome it was given; `timers` are the calls whose timeout
      is still armed. */
  datatype Client = Client(ready: ReadyState, seqNo: nat, pending: map<string, nat>, timers: set<nat>, promises: seq<seq<Outcome>>)

  const FRESH: Client := Client(Connecting, 0, map[], {}, [])

  function Settle(c: Client, n: nat, o: Outcome): Client {
    if n < |c.promises| then c.(promises := c.promises[n := c.promises[n] + [o]]) else c
  }

  /** A call on a socket that is not open fails at once; its identifier is used up all the same. */
  function Called(c: Client): Client {
    if c.ready != Open then c.(seqNo := c.seqNo + 1, promises := c.promises + [[Rejected(NotOpen)]])
    else
      c.(seqNo := c.seqNo + 1, promises := c.promises + [[]], timers := c.timers + {c.seqNo},
         pending := c.pending[CallId(c.seqNo) := c.seqNo])
  }

  /** The timer's callback rejects without looking whether the call is still pending. */
  function TimerFired(c: Client, n: nat): Client {
    Settle(c.(pending := c.pending - {CallId(n)}, timers := c.timers - {n}), n, Rejected(TimedOut))
  }

  function Answered(c: Client, id: string, answer: Answer): Client {
    if id in c.pending then
      var n := c.pending[id];
      Settle(c.(pending := c.pending - {id}, timers := c.timers - {n}), n, OutcomeOf(answer))
    else c
  }

  function Handled(c: Client, m: Message): Client {
    if m.Reply? && m.correlation.Some? then Answered(c, m.correlation.value, m.answer) else c
  }

  function RejectedWhere(promises: seq<seq<Outcome>>, which: set<nat>): (r: seq<seq<Outcome>>)
    ensures |r| == |promises|
  {
    seq(|promises|, n requires 0 <= n < |promises| =>
      if n in which then promises[n] + [Rejected(SocketClosed)] else promises[n])
  }

  function AllRejected(c: Client): Client {
    c.(pending := map[], timers := c.timers - c.pending.Values, promises := RejectedWhere(c.promises, c.pending.Values))
  }

  lemma RejectOneMore(promises: seq<seq<Outcome>>, which: set<nat>, n: nat)
    requires n !in which
    ensures var r := RejectedWhere(promises, which);
            RejectedWhere(promises, which + {n}) == if n < |r| then r[n := r[n] + [Rejected(SocketClosed)]] else r
  {
  }

  class LumiTransport {
    var ready: ReadyState
    var seqNo: nat
    var pending: map<string, nat>
    var timers: set<nat>
    var promises: seq<seq<Outcome>>

    function View(): Client
      reads this
    {
      Client(ready, seqNo, pending, timers, promises)
    }

    constructor ()
      ensures View() == FRESH
    {
      ready, seqNo, pending, timers, promises := Connecting, 0, map[], {}, [];
    }

    method SettlePromise(n: nat, o: Outcome)
      modifies this`promises
      ensures View() == Settle(old(View()), n, o)
    {
      if n < |promises| {
        promises := promises[n := promises[n] + [o]];
      }
    }

    method Rpc() returns (id: Option<string>)
      modifies this
      ensures View() == Called(old(View()))
      ensures id == if old(ready) == Open then Some(CallId(old(seqNo))) else None
    {
      var n := seqNo;
      seqNo := seqNo + 1;
      if ready != Open {
        promises := promises + [[Rejected(NotOpen)]];
        return None;
      }
      promises := promises + [[]];
      timers := timers + {n};
      pending := pending[CallId(n) := n];
      return Some(CallId(n));
    }

    method OnTimer(n: nat)
      modifies this
      ensures View() == TimerFired(old(View()), n)
    {
      timers := timers - {n};
      pending := pending - {CallId(n)};
      SettlePromise(n, Rejected(TimedOut));
    }

    method OnMessage(m: Message)
      modifies this
      ensures View() == Handled(old(View()), m)
    {
      if m.StreamFrame? || m.correlation.None? || m.correlation.value !in pending {
        return;
      }
      var n := pending[m.correlation.value];
      pending := pending - {m.correlation.value};
      timers := timers - {n};
      match m.answer {
        case ErrorAnswer(text) => SettlePromise(n, Rejected(Remote(text)));
        case MetaAnswer(meta, bytes) => SettlePromise(n, ResolvedMeta(meta, bytes));
        case BodyAnswer(body) => SettlePromise(n, ResolvedBody(body));
      }
    }

    /** Rejects every waiting call, one after the other. */
    method RejectAll()
      modifies this
      ensures View() == AllRejected(old(View()))
    {
      var rest := pending.Values;
      ghost var done: set<nat> := {};
      pending := map[];
      while rest != {}
        invariant done + rest == old(pending).Values && done !! rest
        invariant View() == old(View()).(pending := map[], timers := old(timers) - done, promises := RejectedWhere(old(promises), done))
        decreases |rest|
      {
        var n :| n in rest;
        RejectOneMore(old(promises), done, n);
        timers := timers - {n};
        SettlePromise(n, Rejected(SocketClosed));
        rest, done := rest - {n}, done + {n};
      }
      assert done == old(pending).Values;
    }
  }

  // ----- the connection, in every interleaving --------------------------------------------------

  datatype Request = Request(id: string, ask: Ask)

  datatype Served = Served(id: string, ask: Ask, answer: Answer)

  /** The two queues of the socket, what was asked by each call, and what the bridge answered to each request. */
  datatype System = System(client: Client, asks: seq<Ask>, inbox: seq<Request>, outbox: seq<Message>, served: set<Served>)

  const IDLE: System := System(FRESH, [], [], [], {})

  datatype Step =
    | SocketOpens
    | Call(ask: Ask)
    | TimerFires(n: nat)
    | Serve(answer: Option<Answer>)
    | SendStream(target: string, stream: string)
    | SendUnaddressed(unaddressed: Answer)
    | Deliver
    | BeginClose
    | SocketCloses
    | Reconnect

  /** One step; a step that is not enabled changes nothing. The bridge takes requests in order and answers each one
      at most once; messages still on the way when the socket closes are lost. */
  function Next(s: System, step: Step): System {
    match step
    case SocketOpens => if s.client.ready == Connecting then s.(client := s.client.(ready := Open)) else s
    case Call(ask) =>
      s.(client := Called(s.client), asks := s.asks + [ask],
         inbox := if s.client.ready == Open then s.inbox + [Request(CallId(s.client.seqNo), ask)] else s.inbox)
    case TimerFires(n) => if n in s.client.timers then s.(client := TimerFired(s.client, n)) else s
    case Serve(answer) =>
      if s.inbox == [] then s
      else if answer.None? then s.(inbox := s.inbox[1..])
      else
        var r := s.inbox[0];
        s.(inbox := s.inbox[1..], outbox := s.outbox + [Reply(Some(r.id), answer.value)],
           served := s.served + {Served(r.id, r.ask, answer.value)})
    case SendStream(target, stream) => s.(outbox := s.outbox + [StreamFrame(target, stream)])
    case SendUnaddressed(answer) => s.(outbox := s.outbox + [Reply(None, answer)])
    case Deliver =>
      if s.outbox == [] || s.client.ready == Closed then s
      else s.(client := Handled(s.client, s.outbox[0]), outbox := s.outbox[1..])
    case BeginClose => if s.client.ready == Open then s.(client := s.client.(ready := Closing)) else s
    case SocketCloses => s.(client := AllRejected(s.client).(ready := Closed), inbox := [], outbox := [])
    case Reconnect =>
      if s.client.ready == Closed then s.(client := s.client.(ready := Connecting), inbox := [], outbox := []) else s
  }

  function Run(steps: seq<Step>): System {
    if steps == [] then IDLE else Next(Run(steps[..|steps| - 1]), steps[|steps| - 1])
  }

  // ----- every call settles once ---------------------------------------------------------------

  /** Pending holds exactly the unsettled calls, each with its timer armed, and no promise was settled twice. */
  ghost predicate PendingIsUnsettled(c: Client) {
    && c.seqNo == |c.promises|
    && (forall id :: id in c.pending ==> c.pending[id] < c.seqNo && id == CallId(c.pending[id]))
    && (forall n: nat :: n < c.seqNo ==> IsPendingOrSettled(c, n))
    && (forall n: nat :: n in c.timers <==> n < c.seqNo && CallId(n) in c.pending)
  }

  ghost predicate IsPendingOrSettled(c: Client, n: nat)
    requires n < |c.promises|
  {
    if CallId(n) in c.pending then c.promises[n] == [] else |c.promises[n]| == 1
  }

  lemma PendingUnderOwnId(c: Client, n: nat)
    requires PendingIsUnsettled(c) && CallId(n) in c.pending
    ensures c.pending[CallId(n)] == n && n < c.seqNo
  {
    CallIdInjective(n, c.pending[CallId(n)]);
  }

  /** Taking one call out of the pending ones and settling it, with its timer cleared. */
  lemma SettleKeepsPending(c: Client, n: nat, o: Outcome)
    requires PendingIsUnsettled(c) && n < c.seqNo && CallId(n) in c.pending
    ensures PendingIsUnsettled(Settle(c.(pending := c.pending - {CallId(n)}, timers := c.timers - {n}), n, o))
  {
    var c' := Settle(c.(pending := c.pending - {CallId(n)}, timers := c.timers - {n}), n, o);
    forall m: nat | m < c'.seqNo ensures IsPendingOrSettled(c', m) {
      assert IsPendingOrSettled(c, m);
      if CallId(m) == CallId(n) { CallIdInjective(m, n); }
    }
    forall m: nat ensures m in c'.timers <==> m < c'.seqNo && CallId(m) in c'.pending {
      if CallId(m) == CallId(n) { CallIdInjective(m, n); }
    }
  }

  lemma CalledKeepsPending(c: Client)
    requires PendingIsUnsettled(c)
    ensures PendingIsUnsettled(Called(c))
  {
    var c' := Called(c);
    if CallId(c.seqNo) in c.pending { PendingUnderOwnId(c, c.seqNo); }
    forall m: nat | m < c'.seqNo ensures IsPendingOrSettled(c', m) {
      if m < c.seqNo {
        assert IsPendingOrSettled(c, m);
        if CallId(m) == CallId(c.seqNo) { CallIdInjective(m, c.seqNo); }
      }
    }
    forall m: nat ensures m in c'.timers <==> m < c'.seqNo && CallId(m) in c'.pending {
      if CallId(m) == CallId(c.seqNo) { CallIdInjective(m, c.seqNo); }
    }
  }

  lemma HandledKeepsPending(c: Client, m: Message)
    requires PendingIsUnsettled(c)
    ensures PendingIsUnsettled(Handled(c, m))
  {
    if m.Reply? && m.correlation.Some? && m.correlation.value in c.pending {
      SettleKeepsPending(c, c.pending[m.correlation.value], OutcomeOf(m.answer));
    }
  }

  lemma PendingValues(c: Client, n: nat)
    requires PendingIsUnsettled(c)
    ensures n in c.pending.Values <==> n < c.seqNo && CallId(n) in c.pending
  {
    if CallId(n) in c.pending { PendingUnderOwnId(c, n); }
  }

  lemma AllRejectedKeepsPending(c: Client)
    requires PendingIsUnsettled(c)
    ensures PendingIsUnsettled(AllRejected(c)) && AllRejected(c).pending == map[]
  {
    var c' := AllRejected(c);
    forall n: nat | n < c'.seqNo ensures IsPendingOrSettled(c', n) {
      assert IsPendingOrSettled(c, n);
      PendingValues(c, n);
    }
    forall n: nat ensures n in c'.timers <==> n < c'.seqNo && CallId(n) in c'.pending {
      PendingValues(c, n);
    }
  }

  lemma ReadyKeepsPending(c: Client, ready: ReadyState)
    requires PendingIsUnsettled(c)
    ensures PendingIsUnsettled(c.(ready := ready))
  {
    forall n: nat | n < c.seqNo ensures IsPendingOrSettled(c.(ready := ready), n) {
      assert IsPendingOrSettled(c, n);
    }
  }

  lemma StepKeepsPending(s: System, step: Step)
    requires PendingIsUnsettled(s.client)
    ensures PendingIsUnsettled(Next(s, step).client)
  {
    match step {
      case Call(_) => CalledKeepsPending(s.client);
      case TimerFires(n) => if n in s.client.timers { SettleKeepsPending(s.client, n, Rejected(TimedOut)); }
      case Deliver => if s.outbox != [] { HandledKeepsPending(s.client, s.outbox[0]); }
      case SocketCloses =>
        AllRejectedKeepsPending(s.client);
        ReadyKeepsPending(AllRejected(s.client), Closed);
      case _ => ReadyKeepsPending(s.client, Next(s, step).client.ready);
    }
  }

  /** In every interleaving each call settles at most once, `pending` holds exactly the calls not yet settled, and
      each of those has its timer. */
  lemma {:induction false} PendingIsUnsettledAlways(steps: seq<Step>)
    ensures PendingIsUnsettled(Run(steps).client)
  {
    if steps == [] {
      assert forall n: nat :: n !in FRESH.timers;
    } else {
      PendingIsUnsettledAlways(steps[..|steps| - 1]);
      StepKeepsPending(Run(steps[..|steps| - 1]), steps[|steps| - 1]);
    }
  }

  /** Once the socket has closed, every call made so far has settled exactly once. */
  lemma CloseSettlesAll(steps: seq<Step>, n: nat)
    requires n < |Next(Run(steps), SocketCloses).client.promises|
    ensures |Next(Run(steps), SocketCloses).client.promises[n]| == 1
  {
    PendingIsUnsettledAlways(steps);
    var s := Run(steps);
    StepKeepsPending(s, SocketCloses);
    assert IsPendingOrSettled(Next(s, SocketCloses).client, n);
  }

  /** A call that is still pending can settle whatever the bridge does: its timer is armed and rejects it. */
  lemma PendingCanSettle(steps: seq<Step>, n: nat)
    requires n < |Run(steps).client.promises| && Run(steps).client.promises[n] == []
    ensures var c := Next(Run(steps), TimerFires(n)).client;
            c.promises[n] == [Rejected(TimedOut)] && CallId(n) !in c.pending
  {
    PendingIsUnsettledAlways(steps);
    assert IsPendingOrSettled(Run(steps).client, n);
  }

  // ----- a resolved call carries its own reply ---------------------------------------------------

  /** The identifier is that of a call, and what was asked under it is what that call asked. */
  ghost predicate WasAsked(asks: seq<Ask>, id: string, ask: Ask) {
    exists n: nat :: n < |asks| && id == CallId(n) && asks[n] == ask
  }

  /** The bridge sent this answer for a request under this identifier. */
  ghost predicate WasServed(served: set<Served>, id: string, answer: Answer) {
    exists r :: r in served && r.id == id && r.answer == answer
  }

  ghost predicate RequestsAreAsked(s: System) {
    && (forall i :: 0 <= i < |s.inbox| ==> WasAsked(s.asks, s.inbox[i].id, s.inbox[i].ask))
    && (forall r :: r in s.served ==> WasAsked(s.asks, r.id, r.ask))
  }

  ghost predicate AnswersAreServed(s: System) {
    forall i :: 0 <= i < |s.outbox| && s.outbox[i].Reply? && s.outbox[i].correlation.Some? ==>
      WasServed(s.served, s.outbox[i].correlation.value, s.outbox[i].answer)
  }

  /** The outcome came from this side alone, or it is that of an answer the bridge sent under the call's identifier. */
  ghost predicate IsLocal(o: Outcome) {
    o == Rejected(NotOpen) || o == Rejected(TimedOut) || o == Rejected(SocketClosed)
  }

  ghost predicate CarriesReply(served: set<Served>, n: nat, o: Outcome) {
    exists r :: r in served && r.id == CallId(n) && OutcomeOf(r.answer) == o
  }

  ghost predicate OutcomesAreCarried(c: Client, served: set<Served>) {
    forall n: nat, k: nat :: n < |c.promises| && k < |c.promises[n]| ==>
      IsLocal(c.promises[n][k]) || CarriesReply(served, n, c.promises[n][k])
  }

  lemma AskedGrows(asks: seq<Ask>, more: seq<Ask>, id: string, ask: Ask)
    requires WasAsked(asks, id, ask)
    ensures WasAsked(asks + more, id, ask)
  {
    var n: nat :| n < |asks| && id == CallId(n) && asks[n] == ask;
    assert (asks + more)[n] == ask;
  }

  lemma StepKeepsRequests(s: System, step: Step)
    requires s.client.seqNo == |s.asks| && RequestsAreAsked(s)
    ensures RequestsAreAsked(Next(s, step))
  {
    var s' := Next(s, step);
    if step.Call? {
      assert s'.asks[|s.asks|] == step.ask;
      forall i | 0 <= i < |s'.inbox| ensures WasAsked(s'.asks, s'.inbox[i].id, s'.inbox[i].ask) {
        if i < |s.inbox| { AskedGrows(s.asks, [step.ask], s.inbox[i].id, s.inbox[i].ask); }
      }
      forall r | r in s'.served ensures WasAsked(s'.asks, r.id, r.ask) {
        AskedGrows(s.asks, [step.ask], r.id, r.ask);
      }
    }
  }

  lemma ServedGrows(served: set<Served>, r: Served, id: string, answer: Answer)
    requires WasServed(served, id, answer)
    ensures WasServed(served + {r}, id, answer)
  {
    var q :| q in served && q.id == id && q.answer == answer;
    assert q in served + {r};
  }

  lemma ServeKeepsAnswers(s: System, answer: Answer)
    requires AnswersAreServed(s) && s.inbox != []
    ensures AnswersAreServed(Next(s, Serve(Some(answer))))
  {
    var s' := Next(s, Serve(Some(answer)));
    var r := Served(s.inbox[0].id, s.inbox[0].ask, answer);
    forall i | 0 <= i < |s'.outbox| && s'.outbox[i].Reply? && s'.outbox[i].correlation.Some?
      ensures WasServed(s'.served, s'.outbox[i].correlation.value, s'.outbox[i].answer)
    {
      if i < |s.outbox| {
        ServedGrows(s.served, r, s.outbox[i].correlation.value, s.outbox[i].answer);
      } else {
        assert r in s'.served;
      }
    }
  }

  lemma StepKeepsAnswers(s: System, step: Step)
    requires AnswersAreServed(s)
    ensures AnswersAreServed(Next(s, step))
  {
    if step.Serve? && s.inbox != [] && step.answer.Some? {
      ServeKeepsAnswers(s, step.answer.value);
    }
  }

  lemma SettleKeepsCarried(c: Client, served: set<Served>, c': Client, n: nat, o: Outcome)
    requires OutcomesAreCarried(c, served) && c'.promises == Settle(c, n, o).promises
    requires n < |c.promises| ==> IsLocal(o) || CarriesReply(served, n, o)
    ensures OutcomesAreCarried(c', served)
  {
    forall m: nat, k: nat | m < |c'.promises| && k < |c'.promises[m]|
      ensures IsLocal(c'.promises[m][k]) || CarriesReply(served, m, c'.promises[m][k])
    {
      if m != n || k < |c.promises[m]| { assert c'.promises[m][k] == c.promises[m][k]; }
    }
  }

  lemma DeliverKeepsCarried(s: System)
    requires PendingIsUnsettled(s.client) && AnswersAreServed(s) && OutcomesAreCarried(s.client, s.served) && s.outbox != []
    ensures OutcomesAreCarried(Handled(s.client, s.outbox[0]), s.served)
  {
    var m, c := s.outbox[0], s.client;
    if m.Reply? && m.correlation.Some? && m.correlation.value in c.pending {
      var n := c.pending[m.correlation.value];
      var r :| r in s.served && r.id == m.correlation.value && r.answer == m.answer;
      assert CarriesReply(s.served, n, OutcomeOf(m.answer));
      SettleKeepsCarried(c, s.served, Handled(c, m), n, OutcomeOf(m.answer));
    }
  }

  lemma CarriedGrows(c: Client, served: set<Served>, r: Served)
    requires OutcomesAreCarried(c, served)
    ensures OutcomesAreCarried(c, served + {r})
  {
    forall n: nat, k: nat | n < |c.promises| && k < |c.promises[n]|
      ensures IsLocal(c.promises[n][k]) || CarriesReply(served + {r}, n, c.promises[n][k])
    {
      if CarriesReply(served, n, c.promises[n][k]) {
        var q :| q in served && q.id == CallId(n) && OutcomeOf(q.answer) == c.promises[n][k];
        assert q in served + {r};
      }
    }
  }

  lemma CloseKeepsCarried(c: Client, served: set<Served>)
    requires OutcomesAreCarried(c, served)
    ensures OutcomesAreCarried(AllRejected(c), served)
  {
    var c' := AllRejected(c);
    forall n: nat, k: nat | n < |c'.promises| && k < |c'.promises[n]|
      ensures IsLocal(c'.promises[n][k]) || CarriesReply(served, n, c'.promises[n][k])
    {
      if k < |c.promises[n]| { assert c'.promises[n][k] == c.promises[n][k]; }
    }
  }

  lemma CallKeepsCarried(c: Client, served: set<Served>)
    requires OutcomesAreCarried(c, served)
    ensures OutcomesAreCarried(Called(c), served)
  {
    var c' := Called(c);
    forall n: nat, k: nat | n < |c'.promises| && k < |c'.promises[n]|
      ensures IsLocal(c'.promises[n][k]) || CarriesReply(served, n, c'.promises[n][k])
    {
      if n < |c.promises| { assert c'.promises[n] == c.promises[n]; }
    }
  }

  lemma StepKeepsCarried(s: System, step: Step)
    requires PendingIsUnsettled(s.client) && AnswersAreServed(s) && OutcomesAreCarried(s.client, s.served)
    ensures OutcomesAreCarried(Next(s, step).client, Next(s, step).served)
  {
    match step {
      case Call(_) => CallKeepsCarried(s.client, s.served);
      case TimerFires(n) =>
        if n in s.client.timers { SettleKeepsCarried(s.client, s.served, TimerFired(s.client, n), n, Rejected(TimedOut)); }
      case Serve(answer) =>
        if s.inbox != [] && answer.Some? {
          CarriedGrows(s.client, s.served, Served(s.inbox[0].id, s.inbox[0].ask, answer.value));
        }
      case Deliver => if s.outbox != [] { DeliverKeepsCarried(s); }
      case SocketCloses => CloseKeepsCarried(s.client, s.served);
      case _ =>
    }
  }

  /** Requests wait under different identifiers, none of which was answered yet, and none is answered twice. */
  ghost predicate ServedOnce(s: System) {
    && (forall i, j :: 0 <= i < j < |s.inbox| ==> s.inbox[i].id != s.inbox[j].id)
    && (forall r, i :: r in s.served && 0 <= i < |s.inbox| ==> r.id != s.inbox[i].id)
    && (forall r, q :: r in s.served && q in s.served && r.id == q.id ==> r == q)
  }

  lemma CallKeepsServedOnce(s: System, ask: Ask)
    requires s.client.seqNo == |s.asks| && RequestsAreAsked(s) && ServedOnce(s)
    ensures ServedOnce(Next(s, Call(ask)))
  {
    var next := CallId(|s.asks|);
    forall i | 0 <= i < |s.inbox| ensures s.inbox[i].id != next {
      NotYetAsked(s.asks, s.inbox[i].id, s.inbox[i].ask);
    }
    forall r | r in s.served ensures r.id != next {
      NotYetAsked(s.asks, r.id, r.ask);
    }
  }

  lemma NotYetAsked(asks: seq<Ask>, id: string, ask: Ask)
    requires WasAsked(asks, id, ask)
    ensures id != CallId(|asks|)
  {
    var n: nat :| n < |asks| && id == CallId(n) && asks[n] == ask;
    if id == CallId(|asks|) { CallIdInjective(n, |asks|); }
  }

  lemma StepKeepsServedOnce(s: System, step: Step)
    requires s.client.seqNo == |s.asks| && RequestsAreAsked(s) && ServedOnce(s)
    ensures ServedOnce(Next(s, step))
  {
    if step.Call? {
      CallKeepsServedOnce(s, step.ask);
    }
  }

  ghost predicate IsCorrelated(s: System) {
    && s.client.seqNo == |s.asks|
    && RequestsAreAsked(s) && ServedOnce(s) && AnswersAreServed(s) && OutcomesAreCarried(s.client, s.served)
  }

  lemma StepKeepsCorrelated(s: System, step: Step)
    requires PendingIsUnsettled(s.client) && IsCorrelated(s)
    ensures IsCorrelated(Next(s, step))
  {
    StepKeepsRequests(s, step);
    StepKeepsServedOnce(s, step);
    StepKeepsAnswers(s, step);
    StepKeepsCarried(s, step);
    assert Next(s, step).client.seqNo == |Next(s, step).asks|;
  }

  lemma {:induction false} CorrelatedAlways(steps: seq<Step>)
    ensures IsCorrelated(Run(steps))
  {
    if steps != [] {
      CorrelatedAlways(steps[..|steps| - 1]);
      PendingIsUnsettledAlways(steps[..|steps| - 1]);
      StepKeepsCorrelated(Run(steps[..|steps| - 1]), steps[|steps| - 1]);
    }
  }

  /** The bridge's answer to a request is unique. */
  lemma AnsweredOnce(steps: seq<Step>, r: Served, q: Served)
    requires r in Run(steps).served && q in Run(steps).served && r.id == q.id
    ensures r == q
  {
    CorrelatedAlways(steps);
  }

  /** A call that resolved (or was rejected by the bridge) carries an answer the bridge gave to that very request. */
  lemma ResolvedCarriesOwnReply(steps: seq<Step>, n: nat)
    requires n < |Run(steps).client.promises| && Run(steps).client.promises[n] != [] && !IsLocal(Run(steps).client.promises[n][0])
    ensures n < |Run(steps).asks|
    ensures exists answer :: Served(CallId(n), Run(steps).asks[n], answer) in Run(steps).served
                          && OutcomeOf(answer) == Run(steps).client.promises[n][0]
  {
    CorrelatedAlways(steps);
    PendingIsUnsettledAlways(steps);
    var s := Run(steps);
    var o := s.client.promises[n][0];
    assert CarriesReply(s.served, n, o);
    var r :| r in s.served && r.id == CallId(n) && OutcomeOf(r.answer) == o;
    AskedOnce(s.asks, n, r.ask);
    assert r == Served(CallId(n), s.asks[n], r.answer);
  }

  lemma AskedOnce(asks: seq<Ask>, n: nat, ask: Ask)
    requires WasAsked(asks, CallId(n), ask)
    ensures n < |asks| && asks[n] == ask
  {
    var m: nat :| m < |asks| && CallId(n) == CallId(m) && asks[m] == ask;
    CallIdInjective(m, n);
  }

  // ----- what each call settles with ---------------------------------------------------------------

  /** In every run, a call settled by the bridge was answered with an error exactly when it is rejected, with that
      error's text, and otherwise resolves with the body, or the metadata and bytes, of the answer to its request. */
  lemma SettlesAsAnswered(steps: seq<Step>, n: nat)
    requires n < |Run(steps).client.promises| && Run(steps).client.promises[n] != [] && !IsLocal(Run(steps).client.promises[n][0])
    ensures n < |Run(steps).asks|
    ensures exists answer :: Served(CallId(n), Run(steps).asks[n], answer) in Run(steps).served
                          && match answer
                             case ErrorAnswer(text) => Run(steps).client.promises[n] == [Rejected(Remote(text))]
                             case MetaAnswer(meta, bytes) => Run(steps).client.promises[n] == [ResolvedMeta(meta, bytes)]
                             case BodyAnswer(body) => Run(steps).client.promises[n] == [ResolvedBody(body)]
  {
    PendingIsUnsettledAlways(steps);
    assert IsPendingOrSettled(Run(steps).client, n);
    ResolvedCarriesOwnReply(steps, n);
    var answer :| Served(CallId(n), Run(steps).asks[n], answer) in Run(steps).served && OutcomeOf(answer) == Run(steps).client.promises[n][0];
    assert Run(steps).client.promises[n] == [OutcomeOf(answer)];
  }

  /** Closing the socket rejects exactly the calls still pending, each with the close, and leaves the others as they
      were settled. */
  lemma CloseRejectsPending(steps: seq<Step>, n: nat)
    requires n < |Run(steps).client.promises| && Run(steps).client.ready != Closed
    ensures var c, c' := Run(steps).client, Next(Run(steps), SocketCloses).client;
            && n < |c'.promises| && c'.ready == Closed && c'.pending == map[]
            && c'.promises[n] == if c.promises[n] == [] then [Rejected(SocketClosed)] else c.promises[n]
  {
    PendingIsUnsettledAlways(steps);
    var c := Run(steps).client;
    assert IsPendingOrSettled(c, n);
    PendingValues(c, n);
  }

  /** A call made while the socket is not open is rejected at once and sends nothing; one made on an open socket is
      pending, with its timer, and its request is on the way under its identifier. */
  lemma CallsExactly(steps: seq<Step>, ask: Ask)
    ensures var s, s' := Run(steps), Next(Run(steps), Call(ask));
            var n := |s.client.promises|;
            && |s'.client.promises| == n + 1 && |s'.asks| == n + 1 && s'.asks[n] == ask
            && if s.client.ready == Open then
                 && s'.client.promises[n] == [] && CallId(n) in s'.client.pending && n in s'.client.timers
                 && s'.inbox == s.inbox + [Request(CallId(n), ask)]
               else s'.client.promises[n] == [Rejected(NotOpen)] && s'.client.pending == s.client.pending && s'.inbox == s.inbox
  {
    PendingIsUnsettledAlways(steps);
    CorrelatedAlways(steps);
  }

  /** A reply settles the call waiting under its identifier; one under any other identifier, and a stream frame,
      settles nothing. */
  lemma RepliesExactly(c: Client, m: Message)
    requires PendingIsUnsettled(c)
    ensures var c' := Handled(c, m);
            if m.Reply? && m.correlation.Some? && m.correlation.value in c.pending then
              var n := c.pending[m.correlation.value];
              && n < |c.promises| && c'.promises == c.promises[n := [OutcomeOf(m.answer)]]
              && c'.pending == c.pending - {m.correlation.value} && c'.timers == c.timers - {n}
            else c' == c
  {
    if m.Reply? && m.correlation.Some? && m.correlation.value in c.pending {
      var n := c.pending[m.correlation.value];
      assert IsPendingOrSettled(c, n);
      assert c.promises[n] + [OutcomeOf(m.answer)] == [OutcomeOf(m.answer)];
    }
  }

  /** Serving takes the oldest request; an answer to it goes out last, under its identifier. A delivery hands the oldest
      message to the browser as long as its socket is not closed. */
  lemma MessagesMove(s: System, answer: Option<Answer>)
    ensures var s' := Next(s, Serve(answer));
            if s.inbox == [] then s' == s
            else
              && s.inbox == [s.inbox[0]] + s'.inbox && s'.client == s.client
              && s'.outbox == s.outbox + (if answer.Some? then [Reply(Some(s.inbox[0].id), answer.value)] else [])
              && (answer.Some? ==> Served(s.inbox[0].id, s.inbox[0].ask, answer.value) in s'.served)
    ensures var s' := Next(s, Deliver);
            if s.outbox == [] || s.client.ready == Closed then s' == s
            else s.outbox == [s.outbox[0]] + s'.outbox && s'.client == Handled(s.client, s.outbox[0]) && s'.inbox == s.inbox
  {
  }

  /** A socket opens once connecting; closing it loses what is on the way and a new connection starts with nothing
      pending. */
  lemma SocketMoves(steps: seq<Step>)
    ensures var s := Run(steps);
            && Next(s, SocketOpens).client == s.client.(ready := if s.client.ready == Connecting then Open else s.client.ready)
            && Next(s, BeginClose).client == s.client.(ready := if s.client.ready == Open then Closing else s.client.ready)
            && Next(s, SocketCloses).inbox == [] && Next(s, SocketCloses).outbox == []
            && Next(Next(s, SocketCloses), Reconnect).client.ready == Connecting
            && Next(Next(s, SocketCloses), Reconnect).client.pending == map[]
  {
  }
}
