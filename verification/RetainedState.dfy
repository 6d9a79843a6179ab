/** The handlers as they run: methods that update the shared State record in place. */
module RetainedState {
  import opened Wrappers
  import opened Numbers
  import opened RetainedOperation
  import opened RetainedSafety

  /** State, the variables its handlers capture, and the record of its one socket. */
  class State {
    var authorized: bool
    var closed: bool
    var lost: bool
    var busy: bool
    var refusal: Option<Failure>
    var httpWritten: bool
    var closedJoined: bool
    var socket: Socket
    var terms: Terms
    var activeCancel: Option<nat>
    var paidAttempted: bool
    var exchanges: seq<Exchange>
    var stage: Stage
    ghost var attestedPin: Option<Pin>
    ghost var log: seq<Dispatch>

    ghost function View(): Operation
      reads this
    {
      Operation(Flags(authorized, closed, lost, refusal, httpWritten, closedJoined, attestedPin), socket, terms,
                Traffic(busy, activeCancel, paidAttempted, exchanges, log), stage)
    }

    constructor (deadline: real, approvalExpiry: Expiry, maxAgeMs: int, canRefresh: bool)
      ensures View() == Initial(deadline, approvalExpiry, maxAgeMs, canRefresh) && Inv(View())
    {
      authorized, closed, lost, busy, refusal, httpWritten, closedJoined :=
        false, false, false, false, None, false, false;
      socket := Socket(false, false, None, false, false, false, false, false, 0, 0);
      terms := Terms(deadline, Never, approvalExpiry, maxAgeMs, canRefresh);
      activeCancel, paidAttempted, exchanges, stage := None, false, [], Start;
      attestedPin, log := None, [];
      new;
      InitialInv(deadline, approvalExpiry, maxAgeMs, canRefresh);
    }

    method Check(now: Now) returns (failure: Option<Failure>)
      ensures failure == Guard(View(), now)
    {
      if closed || now.aborted { return Some(Fail(CancelledByCaller)); }
      if refusal.Some? { return refusal; }
      if lost || socket.gone { return Some(Fail(ConnectionLost)); }
      if now.mono >= terms.deadline || Reached(terms.evidenceExpiry, now.wall)
         || Reached(terms.approvalExpiry, now.wall) {
        return Some(Fail(Expired));
      }
      return None;
    }

    method DestroyAgent()
      modifies this`socket
      ensures View() == old(View()).(socket := Destroyed(old(View()).socket))
    {
      if socket.isOpened { socket := socket.(gone := true); }
    }

    method FinishExchange(k: nat)
      requires k < |exchanges|
      modifies this`exchanges, this`activeCancel, this`busy
      ensures View() == old(View()).(traffic := Finish(old(View()).traffic, k))
    {
      if exchanges[k].done { return; }
      exchanges := exchanges[k := exchanges[k].(done := true)];
      activeCancel := None;
      busy := false;
    }

    method TerminateExchange(k: nat, why: Failure)
      requires k < |exchanges|
      modifies this`exchanges, this`activeCancel, this`busy, this`lost, this`socket
      ensures View() == Terminate(old(View()), k, why)
    {
      hide Finish;
      if exchanges[k].done { return; }
      exchanges := exchanges[k := exchanges[k].(failure := Some(why))];
      FinishExchange(k);
      lost := true;
      DestroyAgent();
    }

    method CloseOperation()
      requires ActiveInRange(View())
      modifies this`exchanges, this`activeCancel, this`busy, this`lost, this`socket, this`closed
      ensures View() == Close(old(View()))
    {
      if closed { return; }
      closed := true;
      if activeCancel.Some? {
        TerminateExchange(activeCancel.value, Failure(CancelledByCaller, MayHaveDispatched, false));
      }
      DestroyAgent();
    }

    method Connects(now: Now)
      modifies this`socket
      ensures View() == CreateConnection(old(View()), now)
    {
      if socket.isOpened || closed || lost { return; }
      var failure := Check(now);
      if failure.Some? { return; }
      socket := socket.(isOpened := true, connects := socket.connects + 1);
    }

    method Settle(failed: bool, initialRetry: bool)
      modifies this`socket, this`lost
      ensures View() == FinishConnect(old(View()), failed, initialRetry)
    {
      if socket.settled { return; }
      socket := socket.(settled := true);
      if initialRetry && failed && !socket.handshakeComplete && !httpWritten {
        socket := socket.(registered := true, minted := true);
      }
      if failed {
        lost := true;
        DestroyAgent();
      }
    }

    method Shake(pin: Option<Pin>, now: Now)
      modifies this`socket, this`lost
      ensures View() == SecureConnect(old(View()), pin, now)
    {
      hide GuardOf, FinishConnect;
      if socket.handshakeComplete { return; }
      socket := socket.(handshakeComplete := true);
      if pin.None? {
        Settle(true, false);
        return;
      }
      socket := socket.(observedPin := pin);
      var failure := Check(now);
      Settle(failure.Some?, false);
    }

    method SeeClose()
      modifies this`socket, this`lost
      ensures View() == SocketClosed(old(View()))
    {
      socket := socket.(closeSeen := true);
      lost := true;
      Settle(true, false);
    }

    method Reuses(same: bool, now: Now)
      modifies this`refusal, this`lost, this`socket
      ensures View() == ReuseSocket(old(View()), same, now)
    {
      var failure := Some(Fail(ConnectionLost));
      if same && authorized { failure := Check(now); }
      if failure.Some? {
        refusal := failure;
        if same { DestroyAgent(); }
        lost := true;
      }
    }

    method Act(action: AgentAction)
      modifies this`socket, this`refusal, this`lost
      ensures View() == AddRequest(old(View()), action)
    {
      match action
      case Connect(now) => Connects(now);
      case Reuse(same, now) => Reuses(same, now);
      case Queue =>
    }

    /** The checks exchange makes before it takes effect. */
    method Refuses(r: Request, challenge: bool, now: Now) returns (thrown: Option<Failure>)
      ensures thrown == RequestFailure(View(), r, challenge, now)
    {
      hide GuardOf;
      var guarded := Check(now);
      if !r.exactInit { return Some(Fail(Configuration)); }
      if guarded.Some? { return guarded; }
      if busy { return Some(Fail(AlreadyBusy)); }
      if !challenge && !authorized { return Some(Fail(Untrusted)); }
      if !r.targetOk || (!challenge && r.path.GatewayAttestation?) { return Some(Fail(Configuration)); }
      if r.verb.OtherVerb? { return Some(Fail(Configuration)); }
      var paid := !challenge && r.path.ContentPath?;
      if !challenge && !(r.path.TeeAttestation? || paid) { return Some(Fail(Configuration)); }
      if paid && (!r.verb.POST? || paidAttempted) { return Some(Fail(Configuration)); }
      if !challenge && !paid && !r.verb.GET? && !r.verb.POST? { return Some(Fail(Configuration)); }
      if !r.headersOk || !r.bodyOk || ((r.verb.GET? || r.verb.HEAD?) && r.hasBody) { return Some(Fail(Configuration)); }
      if r.aborted { return Some(Fail(CancelledByCaller)); }
      return None;
    }

    /** exchange, up to the point where it waits for its socket. */
    method Exchange(r: Request, challenge: bool, action: AgentAction, now: Now, later: Now)
      returns (thrown: Option<Failure>)
      modifies this`exchanges, this`activeCancel, this`busy, this`paidAttempted,
               this`socket, this`refusal, this`lost
      ensures (View(), thrown) == StartExchange(old(View()), r, challenge, action, now, later)
    {
      hide GuardOf, AddRequest, Terminate, RequestFailure, Admit, Paid;
      thrown := Refuses(r, challenge, now);
      if thrown.Some? { return; }
      var k := |exchanges|;
      Admits(challenge, Paid(r, challenge));
      AddRequestKeepsTraffic(View(), action);
      Act(action);
      var late := Check(later);
      if late.Some? { TerminateExchange(k, late.value); }
    }

    method Admits(challenge: bool, paid: bool)
      modifies this`exchanges, this`activeCancel, this`busy, this`paidAttempted
      ensures View() == old(View()).(traffic := Admit(old(View()).traffic, challenge, paid))
      ensures |exchanges| == |old(exchanges)| + 1
    {
      if paid { paidAttempted := true; }
      busy, activeCancel := true, Some(|exchanges|);
      exchanges := exchanges + [RetainedOperation.Exchange(challenge, paid, false, false, false, false, false, None)];
    }

    method GetSocket(k: nat, same: bool, requestAborted: bool, now: Now)
      requires k < |exchanges|
      modifies this`exchanges, this`activeCancel, this`busy, this`lost, this`socket, this`httpWritten, this`log
      ensures View() == SocketAssigned(old(View()), k, same, requestAborted, now)
    {
      hide GuardOf, Terminate;
      if exchanges[k].socketSeen { return; }
      var failure := Check(now);
      var x := exchanges[k];
      if !same {
        failure := Some(Fail(ConnectionLost));
      } else if failure.None? && requestAborted {
        failure := Some(Fail(CancelledByCaller));
      }
      exchanges := exchanges[k := x.(socketSeen := true, dispatched := x.dispatched || failure.None?)];
      if failure.Some? {
        TerminateExchange(k, failure.value);
      } else {
        httpWritten := true;
        log := log + [Dispatch(k, x.challenge, x.paid, authorized, socket.observedPin, now,
                               terms.evidenceExpiry, terms.approvalExpiry)];
      }
    }

    method Respond(k: nat, redirected: bool, closing: bool, malformed: bool)
      requires k < |exchanges|
      modifies this`exchanges, this`activeCancel, this`busy, this`lost, this`socket
      ensures View() == ResponseHead(old(View()), k, redirected, closing, malformed)
    {
      hide Terminate;
      var paid := exchanges[k].paid;
      exchanges := exchanges[k := exchanges[k].(responded := true)];
      if redirected {
        TerminateExchange(k, Sent(Redirected));
        return;
      }
      if closing {
        if !paid {
          TerminateExchange(k, Sent(ConnectionLost));
          return;
        }
        lost := true;
      }
      if malformed { TerminateExchange(k, Sent(Transport)); }
    }

    method FailBody(k: nat)
      requires k < |exchanges|
      modifies this`exchanges, this`activeCancel, this`busy, this`lost, this`socket
      ensures View() == BodyFailed(old(View()), k)
    {
      if exchanges[k].done {
        lost := true;
        DestroyAgent();
      } else {
        TerminateExchange(k, Sent(Transport));
      }
    }

    method FailRequest(k: nat, source: ErrorSource)
      requires k < |exchanges|
      modifies this`exchanges, this`activeCancel, this`busy, this`lost, this`socket
      ensures View() == RequestError(old(View()), k, source)
    {
      var why := ByWire(exchanges[k], Transport);
      if refusal.Some? {
        why := refusal.value;
      } else if source.FromConnection? {
        why := source.why;
      }
      TerminateExchange(k, why);
    }

    method Abandon(why: Failure)
      requires ActiveInRange(View())
      modifies this`exchanges, this`activeCancel, this`busy, this`lost, this`socket, this`closed, this`stage
      ensures View() == GiveUp(old(View()), why)
    {
      CloseOperation();
      stage := Closing(why);
    }

    method ReadChallenge(outcome: Challenge, now: Now)
      requires ActiveInRange(View()) && |exchanges| > 0
      modifies this`exchanges, this`activeCancel, this`busy, this`lost, this`socket, this`closed, this`stage
      ensures View() == ChallengeRead(old(View()), outcome, now)
    {
      var failure := Check(now);
      match outcome
      case Answered =>
        if failure.Some? { Abandon(failure.value); } else { stage := PreparingChain; }
      case Unusable => Abandon(Fail(Untrusted));
      case ExchangeFailed(asTransport) =>
        if exchanges[0].failure.None? {
          Abandon(Fail(Untrusted));
        } else {
          Abandon(if asTransport then Sent(Transport) else exchanges[0].failure.value);
        }
    }

    /** The acceptance condition; authorized is set last, and the guard is asked once more. */
    method Accept(v: Verdict, now: Now)
      requires ActiveInRange(View())
      modifies this`exchanges, this`activeCancel, this`busy, this`lost, this`socket, this`closed, this`stage,
               this`terms, this`authorized, this`attestedPin
      ensures View() == Decide(old(View()), v, now)
    {
      hide GuardOf, GiveUp;
      if !v.accepted || v.bindingPin.None? || v.bindingPin != socket.observedPin || v.issuedAtMs.None? {
        Abandon(Fail(Untrusted));
        return;
      }
      var expiry := v.issuedAtMs.value + terms.maxAgeMs;
      if !(0 < expiry <= MAX_SAFE_INTEGER) {
        Abandon(Fail(Untrusted));
        return;
      }
      terms := terms.(evidenceExpiry := At(expiry as real));
      authorized, attestedPin := true, v.bindingPin;
      var failure := Check(now);
      if failure.Some? { Abandon(failure.value); } else { stage := Open; }
    }

    method Prepared(failed: Option<Code>, v: Verdict, now: Now, later: Now)
      requires ActiveInRange(View())
      modifies this`exchanges, this`activeCancel, this`busy, this`lost, this`socket, this`closed, this`stage,
               this`terms, this`authorized, this`attestedPin
      ensures View() == ChainReady(old(View()), failed, v, now, later)
    {
      hide GuardOf, Decide, GiveUp;
      var failure := Check(now);
      if failed.Some? {
        Abandon(Fail(failed.value));
      } else if failure.Some? {
        Abandon(failure.value);
      } else if v.moved && !v.accepted && terms.canRefresh {
        stage := Refreshing;
      } else {
        Accept(v, later);
      }
    }

    method Refresh(failed: Option<Code>, u: Update, v: Verdict, now: Now, later: Now)
      requires ActiveInRange(View())
      modifies this`exchanges, this`activeCancel, this`busy, this`lost, this`socket, this`closed, this`stage,
               this`terms, this`authorized, this`attestedPin
      ensures View() == Refreshed(old(View()), failed, u, v, now, later)
    {
      hide GuardOf, Decide, GiveUp;
      if failed.Some? {
        Abandon(Fail(failed.value));
      } else if !u.exact || (u.approvalExpiry.Never? && terms.approvalExpiry.At?) {
        Abandon(Fail(Configuration));
      } else if !u.sound {
        Abandon(Fail(Untrusted));
      } else if !SafeAtLeast(u.maxAgeMs, 1) {
        Abandon(Fail(Configuration));
      } else {
        terms := terms.(maxAgeMs := u.maxAgeMs, approvalExpiry := u.approvalExpiry);
        var failure := Check(now);
        if failure.Some? { Abandon(failure.value); } else { Accept(v, later); }
      }
    }

    method Begins(action: AgentAction, now: Now, later: Now)
      requires ActiveInRange(View())
      modifies this
      ensures View() == Begin(old(View()), action, now, later)
    {
      hide StartExchange, GiveUp;
      var thrown := Exchange(ChallengeRequest, true, action, now, later);
      if thrown.Some? {
        assert View() == old(View()) by {
          ThrownChangesNothing(old(View()), ChallengeRequest, true, action, now, later);
        }
        Abandon(thrown.value);
      } else {
        stage := Challenging;
      }
    }

    method HandlePreparation(e: Event)
      requires ActiveInRange(View()) && Enabled(View(), e) && OnPreparation(e)
      modifies this
      ensures View() == Step(old(View()), e)
    {
      hide Begin, ChallengeRead, ChainReady, Refreshed;
      match e
      case BeginPreparation(action, now, later) => Begins(action, now, later);
      case ChallengeIsRead(outcome, now) => ReadChallenge(outcome, now);
      case ChainIsReady(failed, v, now, later) => Prepared(failed, v, now, later);
      case PolicyIsRefreshed(failed, u, v, now, later) => Refresh(failed, u, v, now, later);
    }

    method HandleSocket(e: Event)
      requires ActiveInRange(View()) && Enabled(View(), e) && OnSocket(e)
      modifies this
      ensures View() == Step(old(View()), e)
    {
      hide AddRequest, FinishConnect, SocketClosed, SecureConnect;
      match e
      case AgentActs(action) => Act(action);
      case ConnectTimerFires => Settle(true, true);
      case SocketFails(reset) => Settle(true, reset);
      case SocketIsClosed => SeeClose();
      case SocketEnds => socket := socket.(gone := true);
      case HandshakeDone(pin, now) => Shake(pin, now);
    }

    method HandleCut(e: Event)
      requires ActiveInRange(View()) && Enabled(View(), e) && Cuts(e)
      modifies this
      ensures View() == Step(old(View()), e)
    {
      hide Terminate;
      match e
      case BodyIsCancelled(k) => TerminateExchange(k, Sent(CancelledByCaller));
      case ExchangeTimerFires(k) => TerminateExchange(k, ByWire(exchanges[k], TimedOut));
      case RequestSignalAborts(k) => TerminateExchange(k, ByWire(exchanges[k], CancelledByCaller));
    }

    method HandleExchange(e: Event)
      requires ActiveInRange(View()) && Enabled(View(), e) && OnExchange(e) && !Cuts(e)
      modifies this
      ensures View() == Step(old(View()), e)
    {
      hide SocketAssigned, ResponseHead, Finish, BodyFailed, Terminate, RequestError;
      match e
      case SocketIsAssigned(k, same, requestAborted, now) => GetSocket(k, same, requestAborted, now);
      case ResponseArrives(k, redirected, closing, malformed) => Respond(k, redirected, closing, malformed);
      case BodyEnds(k) => FinishExchange(k);
      case BodyFails(k) => FailBody(k);
      case RequestFails(k, source) => FailRequest(k, source);
      case RequestCloses(k) => exchanges := exchanges[k := exchanges[k].(requestClosed := true)];
    }

    /** One callback: the new state is the step's, and the invariant holds again. */
    method Handle(e: Event)
      requires Inv(View()) && ActiveInRange(View()) && Enabled(View(), e)
      modifies this
      ensures View() == Step(old(View()), e)
      ensures Inv(View()) && Grows(old(View()), View())
    {
      StepKeeps(View(), e);
      hide Inv, Grows;
      if OnPreparation(e) {
        hide *;
        HandlePreparation(e);
      } else if OnSocket(e) {
        hide *;
        HandleSocket(e);
      } else if Cuts(e) {
        hide *;
        HandleCut(e);
      } else if OnExchange(e) {
        hide *;
        HandleExchange(e);
      } else {
        hide StartExchange, Close;
        match e
        case OwnersJoined =>
          closedJoined := true;
          stage := Refused(stage.why);
        case Fetch(r, action, now, later) => var _ := Exchange(r, false, action, now, later);
        case UserCloses => CloseOperation();
        case SignalAborts => CloseOperation();
        case LookupStarts => socket := socket.(lookups := socket.lookups + 1);
        case LookupEnds => socket := socket.(lookups := socket.lookups - 1);
      }
    }
  }

  lemma ThrownChangesNothing(op: Operation, r: Request, challenge: bool, action: AgentAction, now: Now, later: Now)
    ensures var (next, thrown) := StartExchange(op, r, challenge, action, now, later); thrown.Some? ==> next == op
  {}
}
