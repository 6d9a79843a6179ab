/**
 * What each event does to the operation, said on the record itself: which request is admitted,
 * which connection is opened, how an exchange ends and what its caller is told.
 */
module RetainedHandlers {
  import opened Wrappers
  import opened RetainedOperation
  import opened RetainedSafety
  import opened RetainedTerms

  /** Nothing stands against a dispatch under the terms in force. */
  predicate Living(op: Operation, now: Now) { Alive(op, now, op.terms.evidenceExpiry, op.terms.approvalExpiry) }

  // ---- Admission ----------------------------------------------------------------------------

  /** The requests an exchange lets through: one at a time, on a living operation, to the few known targets. */
  predicate Admissible(op: Operation, r: Request, challenge: bool, now: Now) {
    && r.exactInit && Living(op, now) && !op.traffic.busy && r.targetOk && r.headersOk && r.bodyOk && !r.aborted
    && (challenge ==> !r.verb.OtherVerb?)
    && (!challenge ==>
          && op.flags.authorized
          && ((r.path.TeeAttestation? && r.verb in [GET, POST])
              || (r.path.ContentPath? && r.verb == POST && !op.traffic.paidAttempted)))
    && (r.hasBody ==> r.verb !in [GET, HEAD])
  }

  lemma AdmittedExactly(op: Operation, r: Request, challenge: bool, now: Now)
    ensures RequestFailure(op, r, challenge, now).None? <==> Admissible(op, r, challenge, now)
  {
    GuardExactly(op, now);
    hide GuardOf, Alive;
  }

  /** What a refused caller is told, first reason first. */
  lemma RefusalIsTold(op: Operation, r: Request, challenge: bool, now: Now)
    ensures var told := RequestFailure(op, r, challenge, now);
      && (!r.exactInit ==> told == Some(Failure(Configuration, BeforeHttp, false)))
      && (r.exactInit && !Living(op, now) ==> told == Guard(op, now))
      && (r.exactInit && Living(op, now) && op.traffic.busy ==> told == Some(Failure(AlreadyBusy, BeforeHttp, false)))
      && (r.exactInit && Living(op, now) && !op.traffic.busy && !challenge && !op.flags.authorized ==>
            told == Some(Failure(Untrusted, BeforeHttp, false)))
      && (r.exactInit && Living(op, now) && !op.traffic.busy && (challenge || op.flags.authorized) && told.Some? ==>
            told.value in [Failure(Configuration, BeforeHttp, false), Failure(CancelledByCaller, BeforeHttp, false)])
      && (Admissible(op, r.(aborted := false), challenge, now) && r.aborted ==>
            told == Some(Failure(CancelledByCaller, BeforeHttp, false)))
  {
    GuardExactly(op, now);
    AdmittedExactly(op, r.(aborted := false), challenge, now);
    hide GuardOf, Alive;
  }

  /** The exchange an admitted request begins. */
  function Begun(challenge: bool, paid: bool): Exchange {
    Exchange(challenge, paid, false, false, false, false, false, None)
  }

  /**
   * A fetch changes nothing unless admissible; then it begins one exchange, and a content request spends the
   * paid attempt.
   */
  lemma FetchExactly(op: Operation, r: Request, action: AgentAction, now: Now, later: Now)
    requires ActiveInRange(op) && op.stage.Open?
    ensures var next := Step(op, Fetch(r, action, now, later));
      && (!Admissible(op, r, false, now) ==> next == op)
      && (Admissible(op, r, false, now) ==>
            && next.traffic.paidAttempted == (op.traffic.paidAttempted || r.path.ContentPath?)
            && |next.traffic.exchanges| == |op.traffic.exchanges| + 1
            && next.traffic.exchanges[..|op.traffic.exchanges|] == op.traffic.exchanges
            && var x := next.traffic.exchanges[|op.traffic.exchanges|];
              && x.(done := false, failure := None) == Begun(false, r.path.ContentPath?)
              && (!x.done ==> next.traffic.busy && next.traffic.active == Some(|op.traffic.exchanges|))
              && (x.done ==> !next.traffic.busy && next.flags.lost))
  {
    AdmittedExactly(op, r, false, now);
    hide GuardOf, RequestFailure, AddRequest;
    var admitted := op.(traffic := Admit(op.traffic, false, Paid(r, false)));
    AddRequestKeepsTraffic(admitted, action);
  }

  // ---- The agent ------------------------------------------------------------------------------

  /** A connection is opened, once, exactly while none was and the operation lives. */
  lemma ConnectExactly(op: Operation, now: Now)
    requires ActiveInRange(op) && AwaitsSocket(op)
    ensures Step(op, AgentActs(Connect(now)))
      == if !op.socket.isOpened && Living(op, now)
         then op.(socket := op.socket.(isOpened := true, connects := op.socket.connects + 1)) else op
  {
    GuardExactly(op, now);
    hide GuardOf;
  }

  /**
   * The idle socket is handed out exactly when it is this operation's, authorized and living; else the refusal
   * is recorded.
   */
  lemma ReuseExactly(op: Operation, same: bool, now: Now)
    requires ActiveInRange(op) && AwaitsSocket(op)
    ensures var next := Step(op, AgentActs(Reuse(same, now)));
      && (same && op.flags.authorized && Living(op, now) ==> next == op)
      && (!(same && op.flags.authorized && Living(op, now)) ==>
            && next.flags.lost && (same && op.socket.isOpened ==> next.socket.gone)
            && next.flags.refusal == (if same && op.flags.authorized then Guard(op, now)
                                      else Some(Failure(ConnectionLost, BeforeHttp, false)))
            && next.traffic == op.traffic && next.stage == op.stage && next.terms == op.terms)
  {
    GuardExactly(op, now);
    hide GuardOf;
  }

  /** The socket as a failed connection leaves it: settled, and destroyed if it was open. */
  function FailedSocket(s: Socket, mint: bool): Socket {
    s.(settled := true, registered := s.registered || mint, minted := s.minted || mint, gone := s.gone || s.isOpened)
  }

  /**
   * A connect timeout or a socket error fails the connection once: the operation is lost, and the refusal is
   * a capability exactly for a timeout or a reset before any handshake or HTTP.
   */
  lemma ConnectionFailsExactly(op: Operation, e: Event)
    requires ActiveInRange(op) && Enabled(op, e) && (e.ConnectTimerFires? || e.SocketFails?)
    ensures var mint := (e.ConnectTimerFires? || e.reset) && !op.socket.handshakeComplete && !op.flags.httpWritten;
      Step(op, e) == if op.socket.settled then op
                     else op.(flags := op.flags.(lost := true), socket := FailedSocket(op.socket, mint))
  {}

  /** A closed socket loses the operation, and fails a connection not yet settled without minting anything. */
  lemma SocketCloseExactly(op: Operation)
    requires ActiveInRange(op) && Enabled(op, SocketIsClosed)
    ensures Step(op, SocketIsClosed)
      == op.(flags := op.flags.(lost := true),
             socket := (if op.socket.settled then op.socket else FailedSocket(op.socket, false)).(closeSeen := true))
  {}

  /**
   * The first handshake records the key of an authorized certificate, and settles the connection: it succeeds
   * exactly with a key on a living operation, and a socket settled before keeps its first outcome.
   */
  lemma HandshakeExactly(op: Operation, pin: Option<Pin>, now: Now)
    requires ActiveInRange(op) && Enabled(op, HandshakeDone(pin, now))
    ensures var next := Step(op, HandshakeDone(pin, now));
      && (op.socket.handshakeComplete ==> next == op)
      && (!op.socket.handshakeComplete ==>
            && next.socket.handshakeComplete && next.socket.settled
            && next.socket.observedPin == (if pin.Some? then pin else op.socket.observedPin)
            && next.socket.minted == op.socket.minted && next.traffic == op.traffic
            && var succeeded := pin.Some? && Living(op, now);
               next.flags == op.flags.(lost := op.flags.lost || (!op.socket.settled && !succeeded)))
  {
    hide Guard, FinishConnect, Living, ActiveInRange;
    var shaken := op.(socket := op.socket.(handshakeComplete := true));
    var pinned := op.(socket := op.socket.(handshakeComplete := true, observedPin := pin));
    LivingExactly(pinned, now);
    SameLiving(op, pinned, now);
    if pin.None? { OutcomeExactly(shaken, true); } else { OutcomeExactly(pinned, Guard(pinned, now).Some?); }
  }

  lemma LivingExactly(op: Operation, now: Now)
    ensures Guard(op, now).None? <==> Living(op, now)
  {
    GuardExactly(op, now);
  }

  lemma SameLiving(op: Operation, other: Operation, now: Now)
    requires op.flags == other.flags && op.terms == other.terms && op.socket.gone == other.socket.gone
    ensures Living(op, now) <==> Living(other, now)
  {}

  /** The first outcome of a connection after its handshake; a failure loses the operation. */
  lemma OutcomeExactly(op: Operation, failed: bool)
    requires op.socket.handshakeComplete
    ensures FinishConnect(op, failed, false)
      == if op.socket.settled then op
         else op.(flags := op.flags.(lost := op.flags.lost || failed),
                  socket := op.socket.(settled := true, gone := op.socket.gone || (failed && op.socket.isOpened)))
  {}

  // ---- How exchanges end --------------------------------------------------------------------------

  /** An exchange ended with a failure: told once, the operation lost and its socket destroyed, the way free again. */
  function Failed(op: Operation, k: nat, why: Failure): Operation
    requires k < |op.traffic.exchanges|
  {
    op.(flags := op.flags.(lost := true), socket := op.socket.(gone := op.socket.gone || op.socket.isOpened),
        traffic := op.traffic.(busy := false, active := None,
          exchanges := op.traffic.exchanges[k := op.traffic.exchanges[k].(failure := Some(why), done := true)]))
  }

  /** Whether bytes of the exchange may be on the wire. */
  function PhaseOf(x: Exchange): Phase { if x.dispatched then MayHaveDispatched else BeforeHttp }

  lemma TerminateExactly(op: Operation, k: nat, why: Failure)
    requires k < |op.traffic.exchanges|
    ensures Terminate(op, k, why) == if op.traffic.exchanges[k].done then op else Failed(op, k, why)
  {}

  /**
   * A timeout and an abort each end an unfinished exchange with their own failure, and say whether bytes may
   * have left.
   */
  lemma ExchangeEndsExactly(op: Operation, e: Event, k: nat)
    requires ActiveInRange(op) && Enabled(op, e) && k < |op.traffic.exchanges| && !op.traffic.exchanges[k].done
    ensures var phase := PhaseOf(op.traffic.exchanges[k]);
      && (e == ExchangeTimerFires(k) ==> Step(op, e) == Failed(op, k, Failure(TimedOut, phase, false)))
      && (e == RequestSignalAborts(k) ==> Step(op, e) == Failed(op, k, Failure(CancelledByCaller, phase, false)))
  {
    hide Terminate, Failed, ActiveInRange;
    forall why: Failure ensures Terminate(op, k, why) == Failed(op, k, why) { TerminateExactly(op, k, why); }
  }

  /** A cancelled body and a broken body end it as well; bytes have left by then. */
  lemma BodyBreaksExactly(op: Operation, e: Event, k: nat)
    requires ActiveInRange(op) && Enabled(op, e) && k < |op.traffic.exchanges| && !op.traffic.exchanges[k].done
    ensures e == BodyIsCancelled(k) ==>
      Step(op, e) == Failed(op, k, Failure(CancelledByCaller, MayHaveDispatched, false))
    ensures e == BodyFails(k) ==> Step(op, e) == Failed(op, k, Failure(Transport, MayHaveDispatched, false))
  {
    hide Terminate, Failed, ActiveInRange;
    forall why: Failure ensures Terminate(op, k, why) == Failed(op, k, why) { TerminateExactly(op, k, why); }
  }

  /**
   * A request error ends it with the recorded refusal if there is one, else with what the connection said,
   * else as transport.
   */
  lemma RequestErrorExactly(op: Operation, k: nat, source: ErrorSource)
    requires ActiveInRange(op) && Enabled(op, RequestFails(k, source)) && !op.traffic.exchanges[k].done
    ensures Step(op, RequestFails(k, source))
      == Failed(op, k, if op.flags.refusal.Some? then op.flags.refusal.value
                       else if source.FromConnection? then source.why
                       else Failure(Transport, PhaseOf(op.traffic.exchanges[k]), false))
  {
    forall why: Failure ensures Terminate(op, k, why) == Failed(op, k, why) { TerminateExactly(op, k, why); }
    hide Terminate, Failed;
  }

  /** A body read to its end frees the way and leaves the operation as it was. */
  lemma BodyEndsExactly(op: Operation, k: nat)
    requires ActiveInRange(op) && Enabled(op, BodyEnds(k)) && !op.traffic.exchanges[k].done
    ensures Step(op, BodyEnds(k)) == op.(traffic := op.traffic.(busy := false, active := None,
      exchanges := op.traffic.exchanges[k := op.traffic.exchanges[k].(done := true)]))
  {}

  /** A finished exchange is left alone; only a body that breaks after all still loses the operation. */
  lemma FinishedStaysFinished(op: Operation, e: Event, k: nat)
    requires ActiveInRange(op) && Enabled(op, e) && k < |op.traffic.exchanges| && op.traffic.exchanges[k].done
    requires e in [ExchangeTimerFires(k), RequestSignalAborts(k), BodyIsCancelled(k), BodyFails(k), BodyEnds(k)]
    ensures Step(op, e)
      == if e.BodyFails? then op.(flags := op.flags.(lost := true),
                                  socket := op.socket.(gone := op.socket.gone || op.socket.isOpened)) else op
  {}

  /**
   * A redirect or a foreign encoding ends an exchange, and so does a closing connection on an unpaid one; a
   * closing paid response is read on while the operation is lost; a head that cannot be passed on ends it.
   */
  lemma ResponseExactly(op: Operation, k: nat, redirected: bool, closing: bool, malformed: bool)
    requires ActiveInRange(op) && Enabled(op, ResponseArrives(k, redirected, closing, malformed))
    requires !op.traffic.exchanges[k].done
    ensures var x := op.traffic.exchanges[k];
      var headed := op.(flags := op.flags.(lost := op.flags.lost || closing),
                        traffic := op.traffic.(exchanges := op.traffic.exchanges[k := x.(responded := true)]));
      Step(op, ResponseArrives(k, redirected, closing, malformed))
        == if redirected then Failed(headed, k, Failure(Redirected, MayHaveDispatched, false))
           else if closing && !x.paid then Failed(headed, k, Failure(ConnectionLost, MayHaveDispatched, false))
           else if malformed then Failed(headed, k, Failure(Transport, MayHaveDispatched, false))
           else headed
  {
    var x := op.traffic.exchanges[k];
    var headed := op.(flags := op.flags.(lost := op.flags.lost || closing),
                      traffic := op.traffic.(exchanges := op.traffic.exchanges[k := x.(responded := true)]));
    forall why: Failure ensures Terminate(headed, k, why) == Failed(headed, k, why) {
      TerminateExactly(headed, k, why);
    }
    hide Terminate, Failed, GuardOf;
  }

  /**
   * The socket event releases the bytes exactly on the own socket of a living, uncancelled operation; else it
   * ends the exchange.
   */
  lemma SocketEventExactly(op: Operation, k: nat, same: bool, requestAborted: bool, now: Now)
    requires ActiveInRange(op) && Enabled(op, SocketIsAssigned(k, same, requestAborted, now))
    requires !op.traffic.exchanges[k].done && !op.traffic.exchanges[k].socketSeen
    ensures var x := op.traffic.exchanges[k].(socketSeen := true);
      var seen := op.(traffic := op.traffic.(exchanges := op.traffic.exchanges[k := x]));
      var next := Step(op, SocketIsAssigned(k, same, requestAborted, now));
      && (!same ==> next == Failed(seen, k, Failure(ConnectionLost, BeforeHttp, false)))
      && (same && !Living(op, now) ==> Guard(op, now).Some? && next == Failed(seen, k, Guard(op, now).value))
      && (same && Living(op, now) && requestAborted ==>
            next == Failed(seen, k, Failure(CancelledByCaller, BeforeHttp, false)))
      && (same && Living(op, now) && !requestAborted ==>
            && next.flags == op.flags.(httpWritten := true) && next.socket == op.socket && next.terms == op.terms
            && next.traffic == op.traffic.(
                 exchanges := op.traffic.exchanges[k := x.(dispatched := true)],
                 log := op.traffic.log + [Dispatch(k, x.challenge, x.paid, op.flags.authorized, op.socket.observedPin,
                                                   now, op.terms.evidenceExpiry, op.terms.approvalExpiry)]))
  {
    var x := op.traffic.exchanges[k].(socketSeen := true);
    var seen := op.(traffic := op.traffic.(exchanges := op.traffic.exchanges[k := x]));
    GuardExactly(op, now);
    forall why: Failure ensures Terminate(seen, k, why) == Failed(seen, k, why) { TerminateExactly(seen, k, why); }
    hide GuardOf, Terminate, Failed, Living;
  }

  // ---- Closing and preparing ---------------------------------------------------------------------------

  /**
   * A caller's close and an abort do the same: the exchange in flight ends as cancelled, and the socket is
   * destroyed.
   */
  lemma CloseExactly(op: Operation, e: Event)
    requires ActiveInRange(op) && Enabled(op, e) && (e.UserCloses? || e.SignalAborts?)
    requires op.traffic.active.Some? ==> !op.traffic.exchanges[op.traffic.active.value].done
    ensures Step(op, e)
      == if op.flags.closed then op
         else
           var closed := op.(flags := op.flags.(closed := true));
           if op.traffic.active.Some?
           then Failed(closed, op.traffic.active.value, Failure(CancelledByCaller, MayHaveDispatched, false))
           else closed.(socket := op.socket.(gone := op.socket.gone || op.socket.isOpened))
  {}

  /**
   * Reading the challenge leads on exactly with an answer on a living operation; otherwise the preparation
   * closes, and tells an unusable answer as untrusted and a failed exchange by its failure.
   */
  lemma ChallengeExactly(op: Operation, outcome: Challenge, now: Now)
    requires ActiveInRange(op) && Enabled(op, ChallengeIsRead(outcome, now))
    ensures var next := Step(op, ChallengeIsRead(outcome, now));
      && (outcome.Answered? && Living(op, now) ==> next == op.(stage := PreparingChain))
      && (outcome.Answered? && !Living(op, now) ==>
            next.flags.closed && Guard(op, now).Some? && next.stage == Closing(Guard(op, now).value))
      && (outcome.Unusable? ==> next.flags.closed && next.stage == Closing(Failure(Untrusted, BeforeHttp, false)))
      && (outcome.ExchangeFailed? ==>
            && next.flags.closed
            && next.stage == Closing(if outcome.asTransport then Failure(Transport, MayHaveDispatched, false)
                                     else op.traffic.exchanges[0].failure.value))
  {
    GuardExactly(op, now);
    if Guard(op, now).Some? { GiveUpCloses(op, Guard(op, now).value); }
    GiveUpCloses(op, ChallengeFailure(op, outcome));
    hide GuardOf, GiveUp;
  }

  /** A preparation begins with the challenge exchange, exactly on a living, idle operation. */
  lemma BeginExactly(op: Operation, action: AgentAction, now: Now, later: Now)
    requires ActiveInRange(op) && op.stage.Start? && op.traffic.exchanges == []
    ensures var next := Step(op, BeginPreparation(action, now, later));
      && (Living(op, now) && !op.traffic.busy ==>
            && next.stage == Challenging && |next.traffic.exchanges| == 1
            && next.traffic.exchanges[0].(done := false, failure := None) == Begun(true, false))
      && (!(Living(op, now) && !op.traffic.busy) ==> next.flags.closed && next.stage.Closing?)
  {
    AdmittedExactly(op, ChallengeRequest, true, now);
    if RequestFailure(op, ChallengeRequest, true, now).Some? {
      GiveUpCloses(op, RequestFailure(op, ChallengeRequest, true, now).value);
    }
    hide GuardOf, RequestFailure, AddRequest, GiveUp;
    var admitted := op.(traffic := Admit(op.traffic, true, false));
    AddRequestKeepsTraffic(admitted, action);
    AddRequestKeepsTerms(admitted, action);
  }

  /**
   * The rest is bookkeeping: lookups are counted, an ended socket is gone, a closed request is remembered,
   * owners are joined.
   */
  lemma BookkeepingExactly(op: Operation, e: Event)
    requires ActiveInRange(op) && Enabled(op, e)
    ensures e.LookupStarts? ==> Step(op, e) == op.(socket := op.socket.(lookups := op.socket.lookups + 1))
    ensures e.LookupEnds? ==> Step(op, e) == op.(socket := op.socket.(lookups := op.socket.lookups - 1))
    ensures e.SocketEnds? ==> Step(op, e) == op.(socket := op.socket.(gone := true))
    ensures e.RequestCloses? ==>
      Step(op, e) == op.(traffic := op.traffic.(
        exchanges := op.traffic.exchanges[e.k := op.traffic.exchanges[e.k].(requestClosed := true)]))
    ensures e.OwnersJoined? ==>
      && Step(op, e) == op.(flags := op.flags.(closedJoined := true), stage := Refused(op.stage.why))
      && (op.socket.isOpened ==> op.socket.closeSeen) && op.socket.lookups == 0
      && forall x | x in op.traffic.exchanges :: x.requestClosed
  {}
}
