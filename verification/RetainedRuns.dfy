/** The theorems about whole runs of one retained operation. */
module RetainedRuns {
  import opened Wrappers
  import opened RetainedOperation
  import opened RetainedSafety

  /** One enabled handler takes the operation to its next state. */
  ghost predicate Moves(run: seq<Operation>, events: seq<Event>, i: nat)
    requires i < |events| < |run|
  {
    ActiveInRange(run[i]) && Enabled(run[i], events[i]) && run[i + 1] == Step(run[i], events[i])
  }

  /** Any interleaving of enabled handlers, from a fresh operation on. */
  ghost predicate IsRun(run: seq<Operation>, events: seq<Event>) {
    && |run| == |events| + 1
    && (exists deadline, expiry, maxAge, canRefresh :: run[0] == Initial(deadline, expiry, maxAge, canRefresh))
    && forall i | 0 <= i < |events| :: Moves(run, events, i)
  }

  /** Every state of a run satisfies the invariant, and later states take nothing back. */
  lemma {:induction false} RunKeeps(run: seq<Operation>, events: seq<Event>, i: nat, j: nat)
    requires IsRun(run, events) && i <= j < |run|
    ensures Inv(run[i]) && Inv(run[j]) && Grows(run[i], run[j])
    decreases j
  {
    hide Inv, Grows, Step, Enabled;
    if j == 0 {
      var deadline, expiry, maxAge, canRefresh :| run[0] == Initial(deadline, expiry, maxAge, canRefresh);
      InitialInv(deadline, expiry, maxAge, canRefresh);
      GrowsReflexive(run[0]);
    } else {
      var last := if i < j then i else j - 1;
      RunKeeps(run, events, last, j - 1);
      assert Moves(run, events, j - 1);
      StepKeeps(run[j - 1], events[j - 1]);
      if i < j { GrowsTransitive(run[i], run[j - 1], run[j]); } else { GrowsReflexive(run[j]); }
    }
  }

  /** Every enabled handler extends every run: no reachable state makes one ill-defined. */
  lemma EveryEnabledHandlerExtends(run: seq<Operation>, events: seq<Event>, e: Event)
    requires IsRun(run, events) && Enabled(run[|run| - 1], e)
    ensures ActiveInRange(run[|run| - 1])
    ensures IsRun(run + [Step(run[|run| - 1], e)], events + [e])
  {
    ReachableIsInRange(run, events);
    hide Enabled, Step, Initial;
    var run', events' := run + [Step(run[|run| - 1], e)], events + [e];
    forall i | 0 <= i < |events'| ensures Moves(run', events', i) {
      if i < |events| { assert Moves(run, events, i); }
    }
  }

  lemma ReachableIsInRange(run: seq<Operation>, events: seq<Event>)
    requires IsRun(run, events)
    ensures ActiveInRange(run[|run| - 1])
  {
    RunKeeps(run, events, 0, |run| - 1);
  }

  /** One operation opens at most one socket, whatever its agent, timers and callers do. */
  lemma AtMostOneSocket(run: seq<Operation>, events: seq<Event>, i: nat)
    requires IsRun(run, events) && i < |run|
    ensures run[i].socket.connects <= 1
  {
    RunKeeps(run, events, i, i);
  }

  /** At most one exchange is unfinished, busy says exactly that, and at most one paid request is ever dispatched. */
  lemma OneExchangeOnePaidDispatch(run: seq<Operation>, events: seq<Event>, n: nat)
    requires IsRun(run, events) && n < |run|
    ensures forall i, j | 0 <= i < |run[n].traffic.exchanges| && 0 <= j < |run[n].traffic.exchanges|
      && !run[n].traffic.exchanges[i].done && !run[n].traffic.exchanges[j].done :: i == j
    ensures run[n].traffic.busy <==> exists i | 0 <= i < |run[n].traffic.exchanges| :: !run[n].traffic.exchanges[i].done
    ensures forall i, j | 0 <= i < |run[n].traffic.log| && 0 <= j < |run[n].traffic.log|
      && run[n].traffic.log[i].paid && run[n].traffic.log[j].paid :: i == j
  {
    RunKeeps(run, events, n, n);
    var t := run[n].traffic;
    if t.busy { assert !t.exchanges[t.active.value].done; }
    forall i, j | 0 <= i < j < |t.log| ensures !(t.log[i].paid && t.log[j].paid) {
      assert DispatchOk(t.log[i], t.exchanges, run[n].terms.deadline, run[n].flags.attestedPin);
      assert DispatchOk(t.log[j], t.exchanges, run[n].terms.deadline, run[n].flags.attestedPin);
    }
  }

  // ---- Bytes leave only under the guard ---------------------------------------------------------

  lemma TerminateKeepsLog(op: Operation, k: nat, why: Failure)
    requires k < |op.traffic.exchanges|
    ensures Terminate(op, k, why).traffic.log == op.traffic.log
  {}

  lemma CloseKeepsLog(op: Operation)
    requires ActiveInRange(op)
    ensures Close(op).traffic.log == op.traffic.log
  {}

  lemma StartKeepsLog(op: Operation, r: Request, challenge: bool, action: AgentAction, now: Now, later: Now)
    ensures StartExchange(op, r, challenge, action, now, later).0.traffic.log == op.traffic.log
  {
    hide RequestFailure;
    if RequestFailure(op, r, challenge, now).None? {
      var admitted := op.(traffic := Admit(op.traffic, challenge, Paid(r, challenge)));
      AddRequestKeepsTraffic(admitted, action);
    }
  }

  /**
   * Only the socket event of a waiting exchange releases bytes, one exchange at a time, and only
   * when the guard holds.
   */
  lemma DispatchNeedsGuard(op: Operation, e: Event)
    requires Inv(op) && ActiveInRange(op) && Enabled(op, e)
    ensures Step(op, e).traffic.log != op.traffic.log ==>
      && e.SocketIsAssigned? && e.same && !e.requestAborted && Guard(op, e.now).None?
      && op.traffic.busy && op.traffic.active == Some(e.k)
      && Step(op, e).traffic.log == op.traffic.log + [Dispatch(
           e.k, op.traffic.exchanges[e.k].challenge, op.traffic.exchanges[e.k].paid, op.flags.authorized,
           op.socket.observedPin, e.now, op.terms.evidenceExpiry, op.terms.approvalExpiry)]
  {
    if e.SocketIsAssigned? {
      hide *;
      SocketAssignedLogs(op, e);
    } else {
      hide *;
      OtherEventsKeepLog(op, e);
    }
  }

  lemma SocketAssignedLogs(op: Operation, e: Event)
    requires Inv(op) && ActiveInRange(op) && Enabled(op, e) && e.SocketIsAssigned?
    ensures Step(op, e).traffic.log != op.traffic.log ==>
      && e.same && !e.requestAborted && Guard(op, e.now).None?
      && op.traffic.busy && op.traffic.active == Some(e.k)
      && Step(op, e).traffic.log == op.traffic.log + [Dispatch(
           e.k, op.traffic.exchanges[e.k].challenge, op.traffic.exchanges[e.k].paid, op.flags.authorized,
           op.socket.observedPin, e.now, op.terms.evidenceExpiry, op.terms.approvalExpiry)]
  {
    hide Core, StageOk, Grows, Terminate, GuardOf;
    var k, x := e.k, op.traffic.exchanges[e.k];
    if e.same && Guard(op, e.now).None? && !e.requestAborted && !x.socketSeen {
      ReleaseKeeps(op, k, e.now);
    } else if !x.socketSeen {
      var seen := op.(traffic := SetExchange(op.traffic, k, x.(socketSeen := true)));
      TerminateKeepsLog(seen, k, if !e.same then Fail(ConnectionLost)
        else if Guard(op, e.now).Some? then Guard(op, e.now).value else Fail(CancelledByCaller));
    }
  }

  lemma OtherEventsKeepLog(op: Operation, e: Event)
    requires Inv(op) && ActiveInRange(op) && Enabled(op, e) && !e.SocketIsAssigned?
    ensures Step(op, e).traffic.log == op.traffic.log
  {
    if OnPreparation(e) {
      hide *;
      PreparationKeeps(op, e);
    } else if OnSocket(e) {
      hide Inv, Grows, Step;
      SocketEventKeeps(op, e);
    } else if OnExchange(e) {
      hide *;
      ExchangeEventKeepsLog(op, e);
    } else {
      hide Inv, Close, StartExchange;
      match e {
        case UserCloses => CloseKeepsLog(op);
        case SignalAborts => CloseKeepsLog(op);
        case Fetch(r, action, now, later) => StartKeepsLog(op, r, false, action, now, later);
        case _ =>
      }
    }
  }

  lemma ExchangeEventKeepsLog(op: Operation, e: Event)
    requires Enabled(op, e) && OnExchange(e) && !e.SocketIsAssigned? && ActiveInRange(op)
    ensures Step(op, e).traffic.log == op.traffic.log
  {
    hide Terminate, RequestFailure, GuardOf;
    forall o: Operation, why: Failure | e.k < |o.traffic.exchanges|
      ensures Terminate(o, e.k, why).traffic.log == o.traffic.log
    {
      TerminateKeepsLog(o, e.k, why);
    }
  }

  /** Why the guard refuses, and go on refusing. */
  predicate Dead(op: Operation) { op.flags.closed || op.flags.lost || op.flags.refusal.Some? || op.socket.gone }

  /** closed, lost, refusal and a destroyed socket are absorbing: no byte is released after any of them. */
  lemma {:induction false} DeadStaysSilent(run: seq<Operation>, events: seq<Event>, i: nat, j: nat)
    requires IsRun(run, events) && i <= j < |run| && Dead(run[i])
    ensures Dead(run[j]) && run[j].traffic.log == run[i].traffic.log
    decreases j
  {
    hide *;
    if i < j {
      DeadStaysSilent(run, events, i, j - 1);
      MoveAt(run, events, j - 1);
      DeadStep(run[j - 1], events[j - 1]);
    }
  }

  lemma MoveAt(run: seq<Operation>, events: seq<Event>, i: nat)
    requires IsRun(run, events) && i < |run| - 1
    ensures i < |events| && Inv(run[i]) && ActiveInRange(run[i]) && Enabled(run[i], events[i])
    ensures run[i + 1] == Step(run[i], events[i])
  {
    RunKeeps(run, events, i, i);
    assert Moves(run, events, i);
    hide Inv, Grows, Step, Enabled;
  }

  lemma DeadStep(op: Operation, e: Event)
    requires Inv(op) && ActiveInRange(op) && Enabled(op, e) && Dead(op)
    ensures Dead(Step(op, e)) && Step(op, e).traffic.log == op.traffic.log
  {
    hide Inv, Grows, Step, Enabled, GuardOf, Dead;
    DispatchNeedsGuard(op, e);
    StepKeeps(op, e);
    DeadGrows(op, Step(op, e));
  }

  lemma DeadGrows(a: Operation, b: Operation)
    requires Dead(a) && Grows(a, b)
    ensures Dead(b) && forall now :: Guard(a, now).Some?
  {}

  /**
   * At each release the guard held, and content went out after authorization, on the
   * socket whose observed key is the attested one.
   */
  lemma ContentGoesToTheAttestedSocket(run: seq<Operation>, events: seq<Event>, n: nat, i: nat)
    requires IsRun(run, events) && n < |run| && i < |run[n].traffic.log|
    ensures var d := run[n].traffic.log[i];
      && !d.now.aborted && d.now.mono < run[0].terms.deadline
      && !Reached(d.evidenceExpiry, d.now.wall) && !Reached(d.approvalExpiry, d.now.wall)
      && (!d.challenge ==> d.authorized && d.evidenceExpiry.At? && d.pin.Some?
                           && d.pin == run[n].flags.attestedPin && d.pin == run[n].socket.observedPin)
      && (d.paid ==> !d.challenge)
  {
    RunKeeps(run, events, 0, n);
    var d := run[n].traffic.log[i];
    var t := run[n].traffic;
    assert DispatchOk(d, t.exchanges, run[n].terms.deadline, run[n].flags.attestedPin);
    assert ExchangeOk(t.exchanges[d.exchange], d.exchange, t.paidAttempted, run[n].flags, run[n].socket.minted);
  }

  /** Authorization is granted only by an accepted verdict whose binding names the key seen on this socket. */
  lemma AuthorizationIsEarned(op: Operation, e: Event)
    requires Inv(op) && ActiveInRange(op) && Enabled(op, e) && !op.flags.authorized
    ensures Step(op, e).flags.authorized ==>
      && (e.ChainIsReady? || e.PolicyIsRefreshed?)
      && e.verdict.accepted && e.verdict.bindingPin.Some? && e.verdict.bindingPin == op.socket.observedPin
      && Step(op, e).flags.attestedPin == op.socket.observedPin
  {
    if OnExchange(e) {
      hide *;
      ExchangeEventFrame(op, e);
      SameFrameAuthorization(op, Step(op, e));
    } else if OnSocket(e) {
      hide *;
      SocketEventFrame(op, e);
      SameFrameAuthorization(op, Step(op, e));
    } else {
      hide Core, StageOk, GuardOf, Close, StartExchange;
      forall o: Operation | ActiveInRange(o)
        ensures Close(o).flags.authorized == o.flags.authorized && Close(o).flags.attestedPin == o.flags.attestedPin
      {
        CloseKeepsPin(o);
      }
      match e {
        case BeginPreparation(action, now, later) =>
          StartKeepsAuthorization(op, ChallengeRequest, true, action, now, later);
        case Fetch(r, action, now, later) => StartKeepsAuthorization(op, r, false, action, now, later);
        case _ =>
      }
    }
  }

  lemma CloseKeepsPin(op: Operation)
    requires ActiveInRange(op)
    ensures Close(op).flags.authorized == op.flags.authorized && Close(op).flags.attestedPin == op.flags.attestedPin
  {}

  lemma SameFrameAuthorization(op: Operation, next: Operation)
    ensures SameFrame(op, next) ==> next.flags.authorized == op.flags.authorized
  {}

  lemma StartKeepsAuthorization(op: Operation, r: Request, challenge: bool, action: AgentAction, now: Now, later: Now)
    ensures StartExchange(op, r, challenge, action, now, later).0.flags.authorized == op.flags.authorized
    ensures StartExchange(op, r, challenge, action, now, later).0.socket.minted == op.socket.minted
  {
    hide RequestFailure, GuardOf, AddRequest, Terminate;
    var admitted := op.(traffic := Admit(op.traffic, challenge, Paid(r, challenge)));
    AddRequestKeepsTraffic(admitted, action);
    AddRequestKeepsMarks(admitted, action);
    var added := AddRequest(admitted, action);
    if Guard(added, later).Some? { TerminateKeepsMarks(added, |op.traffic.exchanges|, Guard(added, later).value); }
  }

  lemma AddRequestKeepsMarks(op: Operation, action: AgentAction)
    ensures AddRequest(op, action).flags.authorized == op.flags.authorized
    ensures AddRequest(op, action).socket.minted == op.socket.minted
  {
    hide GuardOf;
  }

  lemma TerminateKeepsMarks(op: Operation, k: nat, why: Failure)
    requires k < |op.traffic.exchanges|
    ensures Terminate(op, k, why).flags.authorized == op.flags.authorized
    ensures Terminate(op, k, why).socket.minted == op.socket.minted
  {}

  // ---- What a failure tells the caller ------------------------------------------------------------

  /** A failure that says before_http is true then and for ever: that exchange's bytes are in no log. */
  lemma BeforeHttpIsTruthful(run: seq<Operation>, events: seq<Event>, n: nat, m: nat, k: nat)
    requires IsRun(run, events) && n <= m < |run| && k < |run[n].traffic.exchanges|
    requires var x := run[n].traffic.exchanges[k]; x.failure.Some? && x.failure.value.phase == BeforeHttp
    ensures k < |run[m].traffic.exchanges|
    ensures run[m].traffic.exchanges[k].failure == run[n].traffic.exchanges[k].failure
    ensures forall i | 0 <= i < |run[m].traffic.log| :: run[m].traffic.log[i].exchange != k
  {
    RunKeeps(run, events, n, m);
    var a, b := run[n].traffic, run[m].traffic;
    assert ExchangeOk(a.exchanges[k], k, a.paidAttempted, run[n].flags, run[n].socket.minted);
    assert ExchangeOk(b.exchanges[k], k, b.paidAttempted, run[m].flags, run[m].socket.minted);
    forall i | 0 <= i < |b.log| ensures b.log[i].exchange != k {
      assert DispatchOk(b.log[i], b.exchanges, run[m].terms.deadline, run[m].flags.attestedPin);
    }
  }

  /** A paid response that asks to close the connection is read to its end, and nothing follows it. */
  lemma ClosingPaidResponseIsStillRead(run: seq<Operation>, events: seq<Event>, n: nat, k: nat, m: nat)
    requires IsRun(run, events) && n < |events| && n < m < |run| && k < |run[n].traffic.exchanges|
    requires events[n] == ResponseArrives(k, false, true, false) && run[n].traffic.exchanges[k].paid
    requires !run[n].traffic.exchanges[k].done
    ensures run[n + 1].flags.lost && run[n + 1].traffic.active == Some(k)
    ensures k < |run[n + 1].traffic.exchanges|
    ensures run[n + 1].traffic.exchanges[k] == run[n].traffic.exchanges[k].(responded := true)
    ensures run[m].traffic.log == run[n].traffic.log
  {
    RunKeeps(run, events, n, n);
    assert Moves(run, events, n);
    DeadStaysSilent(run, events, n + 1, m);
  }

  // ---- The initial refusal --------------------------------------------------------------------------

  /** Only a connect timeout or a reset connection mints the capability, before any handshake or HTTP, and only once. */
  lemma MintingNeedsConnectionFailure(op: Operation, e: Event)
    requires Inv(op) && ActiveInRange(op) && Enabled(op, e) && !op.socket.minted
    ensures Step(op, e).socket.minted ==>
      && (e.ConnectTimerFires? || (e.SocketFails? && e.reset))
      && !op.socket.settled && !op.socket.handshakeComplete && !op.flags.httpWritten
  {
    hide Core, StageOk, GuardOf;
    if OnPreparation(e) || e.Fetch? {
      hide *;
      PreparationNeverMints(op, e);
    } else if OnExchange(e) {
      hide *;
      ExchangeNeverMints(op, e);
    }
  }

  lemma ExchangeNeverMints(op: Operation, e: Event)
    requires ActiveInRange(op) && Enabled(op, e) && OnExchange(e)
    ensures Step(op, e).socket.minted == op.socket.minted
  {
    hide GuardOf, Terminate;
    forall o: Operation, why: Failure | e.k < |o.traffic.exchanges|
      ensures Terminate(o, e.k, why).socket.minted == o.socket.minted
    {
      TerminateKeepsMarks(o, e.k, why);
    }
  }

  lemma GiveUpNeverMints(op: Operation, why: Failure)
    requires ActiveInRange(op)
    ensures GiveUp(op, why).socket.minted == op.socket.minted
  {}

  lemma PreparationNeverMints(op: Operation, e: Event)
    requires ActiveInRange(op) && Enabled(op, e) && (OnPreparation(e) || e.Fetch?)
    ensures Step(op, e).socket.minted == op.socket.minted
  {
    hide RequestFailure, GuardOf, GiveUp, StartExchange;
    forall o: Operation, why: Failure | ActiveInRange(o) ensures GiveUp(o, why).socket.minted == o.socket.minted {
      GiveUpNeverMints(o, why);
    }
    match e {
      case BeginPreparation(action, now, later) =>
        StartKeepsAuthorization(op, ChallengeRequest, true, action, now, later);
      case Fetch(r, action, now, later) => StartKeepsAuthorization(op, r, false, action, now, later);
      case _ =>
    }
  }

  /** An operation that minted an initial refusal never wrote HTTP, and never will. */
  lemma MintedMeansNothingSent(run: seq<Operation>, events: seq<Event>, i: nat, j: nat)
    requires IsRun(run, events) && i <= j < |run| && run[i].socket.minted
    ensures run[j].traffic.log == [] && !run[j].flags.httpWritten && run[j].flags.lost
  {
    RunKeeps(run, events, i, j);
  }

  /** When a preparation has failed, all its owners have joined: socket closed, lookups answered, requests closed. */
  lemma RefusedIsJoined(run: seq<Operation>, events: seq<Event>, i: nat)
    requires IsRun(run, events) && i < |run| && run[i].flags.closedJoined
    ensures run[i].stage.Refused? && run[i].flags.closed && run[i].socket.lookups == 0
    ensures run[i].socket.isOpened ==> run[i].socket.closeSeen
    ensures forall k | 0 <= k < |run[i].traffic.exchanges| :: run[i].traffic.exchanges[k].requestClosed
    ensures run[i].stage.why.minted ==> run[i].socket.minted
  {
    RunKeeps(run, events, i, i);
  }
}
