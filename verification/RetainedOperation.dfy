/**
 * The retained TLS operation as a state machine. Every JavaScript handler is one
 * atomic step, and the environment may fire any enabled handler at any time.
 */
module RetainedOperation {
  import opened Wrappers
  import opened Numbers

  datatype Code =
    | Configuration | TlsCertificate | Untrusted | ConnectionLost | CancelledByCaller
    | Expired | TimedOut | Transport | Redirected | AlreadyBusy

  datatype Phase = BeforeHttp | MayHaveDispatched

  /** A RetainedGatewayError. minted: it is the object initialConnectionRefusals was given. */
  datatype Failure = Failure(code: Code, phase: Phase, minted: bool)

  function Fail(code: Code): Failure { Failure(code, BeforeHttp, false) }

  type Pin = string

  /** A clock reading and the operation's AbortSignal, taken together in one handler. */
  datatype Now = Now(aborted: bool, mono: real, wall: real)

  /** Infinity or a wall-clock instant in milliseconds. */
  datatype Expiry = Never | At(ms: real)

  predicate Reached(e: Expiry, wall: real) { e.At? && wall >= e.ms }

  datatype Exchange = Exchange(
    challenge: bool, paid: bool,
    socketSeen: bool,        // the request's "socket" event has fired
    dispatched: bool,        // wireDispatched: its bytes may be on the wire
    responded: bool,         // its response head has arrived
    done: bool,              // finish() or terminate() has run
    requestClosed: bool,     // the request's "close" event has fired
    failure: Option<Failure>)

  /** One moment at which request bytes were released to the socket. */
  datatype Dispatch = Dispatch(
    exchange: nat, challenge: bool, paid: bool, authorized: bool, pin: Option<Pin>, now: Now,
    evidenceExpiry: Expiry, approvalExpiry: Expiry)

  datatype Stage = Start | Challenging | PreparingChain | Refreshing | Open
      | Closing(why: Failure) | Refused(why: Failure)

  /** The flags of State. */
  datatype Flags = Flags(
    authorized: bool, closed: bool, lost: bool, refusal: Option<Failure>, httpWritten: bool, closedJoined: bool,
    attestedPin: Option<Pin>)     // the key of the accepted binding

  /** The socket and its agent. */
  datatype Socket = Socket(
    isOpened: bool, handshakeComplete: bool, observedPin: Option<Pin>,
    gone: bool,                   // socket.destroyed or socket.writableEnded
    settled: bool,                // createConnection's finish has run
    registered: bool,             // an entry in initialConnectionRefusals
    minted: bool,                 // such an entry was made at some time
    closeSeen: bool, lookups: nat, connects: nat)

  datatype Terms = Terms(deadline: real, evidenceExpiry: Expiry, approvalExpiry: Expiry,
      maxAgeMs: int, canRefresh: bool)

  /** Exchanges so far, the one in flight, and the history of released bytes. */
  datatype Traffic = Traffic(busy: bool, active: Option<nat>, paidAttempted: bool,
      exchanges: seq<Exchange>, log: seq<Dispatch>)

  datatype Operation = Operation(flags: Flags, socket: Socket, terms: Terms, traffic: Traffic, stage: Stage)

  function Initial(deadline: real, approvalExpiry: Expiry, maxAgeMs: int, canRefresh: bool): Operation {
    Operation(Flags(false, false, false, None, false, false, None),
              Socket(false, false, None, false, false, false, false, false, 0, 0),
              Terms(deadline, Never, approvalExpiry, maxAgeMs, canRefresh),
              Traffic(false, None, false, [], []),
              Start)
  }

  // ---- guard, finish, terminate, close ---------------------------------------------------

  function GuardOf(f: Flags, s: Socket, t: Terms, now: Now): Option<Failure> {
    if f.closed || now.aborted then Some(Fail(CancelledByCaller))
    else if f.refusal.Some? then f.refusal
    else if f.lost || s.gone then Some(Fail(ConnectionLost))
    else if now.mono >= t.deadline || Reached(t.evidenceExpiry, now.wall) || Reached(t.approvalExpiry, now.wall)
    then Some(Fail(Expired))
    else None
  }

  function Guard(op: Operation, now: Now): Option<Failure> { GuardOf(op.flags, op.socket, op.terms, now) }

  /** socket.destroy(): only an opened socket can be destroyed. */
  function Destroyed(s: Socket): Socket { s.(gone := s.gone || s.isOpened) }

  /** lost, with the socket destroyed. */
  function Lose(op: Operation): Operation { op.(flags := op.flags.(lost := true), socket := Destroyed(op.socket)) }

  function SetExchange(t: Traffic, k: nat, x: Exchange): Traffic
    requires k < |t.exchanges|
  {
    t.(exchanges := t.exchanges[k := x])
  }

  function Finish(t: Traffic, k: nat): Traffic
    requires k < |t.exchanges|
  {
    if t.exchanges[k].done then t
    else SetExchange(t, k, t.exchanges[k].(done := true)).(busy := false, active := None)
  }

  function Terminate(op: Operation, k: nat, why: Failure): Operation
    requires k < |op.traffic.exchanges|
  {
    var x := op.traffic.exchanges[k];
    if x.done then op
    else Lose(op.(traffic := Finish(SetExchange(op.traffic, k, x.(failure := Some(why))), k)))
  }

  predicate ActiveInRange(op: Operation) {
    op.traffic.active.Some? ==> op.traffic.active.value < |op.traffic.exchanges|
  }

  function Close(op: Operation): Operation
    requires ActiveInRange(op)
  {
    if op.flags.closed then op
    else
      var closed := op.(flags := op.flags.(closed := true));
      var cancelled := if op.traffic.active.Some?
                       then Terminate(closed, op.traffic.active.value,
                                      Failure(CancelledByCaller, MayHaveDispatched, false))
                       else closed;
      cancelled.(socket := Destroyed(cancelled.socket))
  }

  // ---- The agent: createConnection and reuseSocket ------------------------------------------

  function CreateConnection(op: Operation, now: Now): Operation {
    if op.socket.isOpened || op.flags.closed || op.flags.lost || Guard(op, now).Some? then op
    else op.(socket := op.socket.(isOpened := true, connects := op.socket.connects + 1))
  }

  /** finish() inside createConnection: the first outcome settles the connection. */
  function FinishConnect(op: Operation, failed: bool, initialRetry: bool): Operation {
    if op.socket.settled then op
    else
      var mint := failed && initialRetry && !op.socket.handshakeComplete && !op.flags.httpWritten;
      var settled := op.(socket := op.socket.(
        settled := true, registered := op.socket.registered || mint, minted := op.socket.minted || mint));
      if failed then Lose(settled) else settled
  }

  function SocketClosed(op: Operation): Operation {
    FinishConnect(op.(flags := op.flags.(lost := true), socket := op.socket.(closeSeen := true)), true, false)
  }

  /** pin: the SPKI digest of an authorized certificate for the host, or None. */
  function SecureConnect(op: Operation, pin: Option<Pin>, now: Now): Operation {
    if op.socket.handshakeComplete then op
    else if pin.None? then FinishConnect(op.(socket := op.socket.(handshakeComplete := true)), true, false)
    else
      var pinned := op.(socket := op.socket.(handshakeComplete := true, observedPin := pin));
      FinishConnect(pinned, Guard(pinned, now).Some?, false)
  }

  function ReuseSocket(op: Operation, same: bool, now: Now): Operation {
    var failure := if !same || !op.flags.authorized then Some(Fail(ConnectionLost)) else Guard(op, now);
    if failure.None? then op
    else op.(flags := op.flags.(refusal := failure, lost := true),
             socket := if same then Destroyed(op.socket) else op.socket)
  }

  datatype AgentAction = Connect(now: Now) | Reuse(same: bool, now: Now) | Queue

  function AddRequest(op: Operation, action: AgentAction): Operation {
    match action
    case Connect(now) => CreateConnection(op, now)
    case Reuse(same, now) => ReuseSocket(op, same, now)
    case Queue => op
  }

  // ---- exchange ---------------------------------------------------------------------------

  datatype Path = GatewayAttestation | TeeAttestation | ContentPath | OtherPath
  datatype Verb = GET | POST | HEAD | PUT | PATCH | DELETE | OPTIONS | OtherVerb

  /** What exchange() looks at in its arguments. */
  datatype Request = Request(
    exactInit: bool,      // init has known keys only
    targetOk: bool,       // same origin, no credentials or fragment, credentials and redirect modes allowed
    path: Path, verb: Verb,
    headersOk: bool,      // no forbidden header, identity encoding
    hasBody: bool, bodyOk: bool,
    aborted: bool)        // the combined request signal

  const ChallengeRequest := Request(true, true, GatewayAttestation, GET, true, false, true, false)

  predicate Paid(r: Request, challenge: bool) { !challenge && r.path.ContentPath? }

  function RequestFailure(op: Operation, r: Request, challenge: bool, now: Now): Option<Failure> {
    if !r.exactInit then Some(Fail(Configuration))
    else if Guard(op, now).Some? then Guard(op, now)
    else if op.traffic.busy then Some(Fail(AlreadyBusy))
    else if !challenge && !op.flags.authorized then Some(Fail(Untrusted))
    else if !r.targetOk || (!challenge && r.path.GatewayAttestation?) then Some(Fail(Configuration))
    else if r.verb.OtherVerb? then Some(Fail(Configuration))
    else if !challenge && !r.path.TeeAttestation? && !r.path.ContentPath? then Some(Fail(Configuration))
    else if Paid(r, challenge) && (!r.verb.POST? || op.traffic.paidAttempted) then Some(Fail(Configuration))
    else if !challenge && !Paid(r, challenge) && !r.verb.GET? && !r.verb.POST? then Some(Fail(Configuration))
    else if !r.headersOk || !r.bodyOk || ((r.verb.GET? || r.verb.HEAD?) && r.hasBody) then Some(Fail(Configuration))
    else if r.aborted then Some(Fail(CancelledByCaller))
    else None
  }

  /** paidAttempted, busy and activeCancel as an admitted exchange sets them. */
  function Admit(t: Traffic, challenge: bool, paid: bool): Traffic {
    t.(paidAttempted := t.paidAttempted || paid, busy := true, active := Some(|t.exchanges|),
       exchanges := t.exchanges + [Exchange(challenge, paid, false, false, false, false, false, None)])
  }

  /** The synchronous part of exchange: admission, the agent's reaction, and the last guard before req.end. */
  function StartExchange(op: Operation, r: Request, challenge: bool, action: AgentAction, now: Now, later: Now)
    : (Operation, Option<Failure>)
  {
    var refused := RequestFailure(op, r, challenge, now);
    if refused.Some? then (op, refused)
    else
      var added := AddRequest(op.(traffic := Admit(op.traffic, challenge, Paid(r, challenge))), action);
      AddRequestKeepsTraffic(op.(traffic := Admit(op.traffic, challenge, Paid(r, challenge))), action);
      var late := Guard(added, later);
      (if late.Some? then Terminate(added, |op.traffic.exchanges|, late.value) else added, None)
  }

  lemma AddRequestKeepsTraffic(op: Operation, action: AgentAction)
    ensures AddRequest(op, action).traffic == op.traffic
  {}

  /** The request's "socket" event: the last check before queued bytes are flushed. */
  function SocketAssigned(op: Operation, k: nat, same: bool, requestAborted: bool, now: Now): Operation
    requires k < |op.traffic.exchanges|
  {
    var x := op.traffic.exchanges[k];
    if x.socketSeen then op
    else
      var seen := op.(traffic := SetExchange(op.traffic, k, x.(socketSeen := true)));
      if !same then Terminate(seen, k, Fail(ConnectionLost))
      else if Guard(op, now).Some? then Terminate(seen, k, Guard(op, now).value)
      else if requestAborted then Terminate(seen, k, Fail(CancelledByCaller))
      else Release(op, k, now)
  }

  /** wireDispatched and httpWritten: the exchange's bytes may leave from here on. */
  function Release(op: Operation, k: nat, now: Now): Operation
    requires k < |op.traffic.exchanges|
  {
    var x := op.traffic.exchanges[k];
    var d := Dispatch(k, x.challenge, x.paid, op.flags.authorized, op.socket.observedPin, now,
                      op.terms.evidenceExpiry, op.terms.approvalExpiry);
    op.(flags := op.flags.(httpWritten := true),
        traffic := SetExchange(op.traffic, k, x.(socketSeen := true, dispatched := true)).(log := op.traffic.log + [d]))
  }

  function Sent(code: Code): Failure { Failure(code, MayHaveDispatched, false) }

  /** Failures whose phase depends on whether the exchange reached the wire. */
  function ByWire(x: Exchange, code: Code): Failure { if x.dispatched then Sent(code) else Fail(code) }

  function ResponseHead(op: Operation, k: nat, redirected: bool, closing: bool, malformed: bool): Operation
    requires k < |op.traffic.exchanges|
  {
    var x := op.traffic.exchanges[k];
    var headed := op.(traffic := SetExchange(op.traffic, k, x.(responded := true)));
    if redirected then Terminate(headed, k, Sent(Redirected))
    else if closing && !x.paid then Terminate(headed, k, Sent(ConnectionLost))
    else
      var drained := headed.(flags := headed.flags.(lost := headed.flags.lost || closing));
      if malformed then Terminate(drained, k, Sent(Transport)) else drained
  }

  function BodyFailed(op: Operation, k: nat): Operation
    requires k < |op.traffic.exchanges|
  {
    var x := op.traffic.exchanges[k];
    if x.done then Lose(op) else Terminate(op, k, Sent(Transport))
  }

  /** Where a ClientRequest error comes from: a refusal handed to the agent's callback, or the system. */
  datatype ErrorSource = FromConnection(why: Failure) | FromSystem

  function RequestError(op: Operation, k: nat, source: ErrorSource): Operation
    requires k < |op.traffic.exchanges|
  {
    var why := if op.flags.refusal.Some? then op.flags.refusal.value
               else if source.FromConnection? then source.why
               else ByWire(op.traffic.exchanges[k], Transport);
    Terminate(op, k, why)
  }

  // ---- openRetainedGatewayOperation ---------------------------------------------------------

  /** What the built-in verifier says about the evidence for the current policy. */
  datatype Verdict = Verdict(
    accepted: bool,            // ok, hardware-verified, UpToDate, chain passed, no required check failed
    moved: bool,               // chain passed but a pinned measurement did not
    bindingPin: Option<Pin>,
    issuedAtMs: Option<int>)   // evidence.issued_at_ms when it is a safe integer

  /** exact: known fields and a valid expiry. sound: the policy could be copied and meets the security floor. */
  datatype Update = Update(exact: bool, sound: bool, maxAgeMs: int, approvalExpiry: Expiry)

  /**
   * How reading the challenge ends. ExchangeFailed: the exchange or its body reported
   * a failure, perhaps as a mere transport error. Unusable: the response is not ok,
   * has no body, is too large or is not JSON.
   */
  datatype Challenge = Answered | ExchangeFailed(asTransport: bool) | Unusable

  function GiveUp(op: Operation, why: Failure): Operation
    requires ActiveInRange(op)
  {
    Close(op).(stage := Closing(why))
  }

  function Begin(op: Operation, action: AgentAction, now: Now, later: Now): Operation
    requires ActiveInRange(op)
  {
    var (started, thrown) := StartExchange(op, ChallengeRequest, true, action, now, later);
    if thrown.Some? then GiveUp(op, thrown.value) else started.(stage := Challenging)
  }

  function ChallengeFailure(op: Operation, outcome: Challenge): Failure
    requires |op.traffic.exchanges| > 0
  {
    var failure := op.traffic.exchanges[0].failure;
    if outcome.Unusable? || failure.None? then Fail(Untrusted)
    else if outcome.ExchangeFailed? && outcome.asTransport then Sent(Transport)
    else failure.value
  }

  function ChallengeRead(op: Operation, outcome: Challenge, now: Now): Operation
    requires ActiveInRange(op) && |op.traffic.exchanges| > 0
  {
    if !outcome.Answered? then GiveUp(op, ChallengeFailure(op, outcome))
    else if Guard(op, now).Some? then GiveUp(op, Guard(op, now).value)
    else op.(stage := PreparingChain)
  }

  /** The acceptance condition on the final verdict; authorization is its last act. */
  function Decide(op: Operation, v: Verdict, now: Now): Operation
    requires ActiveInRange(op)
  {
    if !v.accepted || v.bindingPin.None? || v.bindingPin != op.socket.observedPin || v.issuedAtMs.None?
    then GiveUp(op, Fail(Untrusted))
    else
      var expiry := v.issuedAtMs.value + op.terms.maxAgeMs;
      if !(0 < expiry <= MAX_SAFE_INTEGER) then GiveUp(op, Fail(Untrusted))
      else
        var granted := op.(terms := op.terms.(evidenceExpiry := At(expiry as real)),
                           flags := op.flags.(authorized := true, attestedPin := v.bindingPin));
        if Guard(granted, now).Some? then GiveUp(granted, Guard(granted, now).value)
        else granted.(stage := Open)
  }

  function ChainReady(op: Operation, failed: Option<Code>, v: Verdict, now: Now, later: Now): Operation
    requires ActiveInRange(op)
  {
    if failed.Some? then GiveUp(op, Fail(failed.value))
    else if Guard(op, now).Some? then GiveUp(op, Guard(op, now).value)
    else if v.moved && !v.accepted && op.terms.canRefresh then op.(stage := Refreshing)
    else Decide(op, v, later)
  }

  function UpdateFailure(op: Operation, u: Update): Option<Failure> {
    if !u.exact || (u.approvalExpiry.Never? && op.terms.approvalExpiry.At?) then Some(Fail(Configuration))
    else if !u.sound then Some(Fail(Untrusted))
    else if !SafeAtLeast(u.maxAgeMs, 1) then Some(Fail(Configuration))
    else None
  }

  /** Only policy and approval metadata may change, and a bounded approval stays bounded. */
  function Refreshed(op: Operation, failed: Option<Code>, u: Update, v: Verdict, now: Now, later: Now): Operation
    requires ActiveInRange(op)
  {
    if failed.Some? then GiveUp(op, Fail(failed.value))
    else if UpdateFailure(op, u).Some? then GiveUp(op, UpdateFailure(op, u).value)
    else
      var updated := op.(terms := op.terms.(maxAgeMs := u.maxAgeMs, approvalExpiry := u.approvalExpiry));
      if Guard(updated, now).Some? then GiveUp(updated, Guard(updated, now).value)
      else Decide(updated, v, later)
  }

  // ---- Steps and runs --------------------------------------------------------------------------

  datatype Event =
    | BeginPreparation(action: AgentAction, now: Now, later: Now)
    | ChallengeIsRead(outcome: Challenge, now: Now)
    | ChainIsReady(failed: Option<Code>, verdict: Verdict, now: Now, later: Now)
    | PolicyIsRefreshed(failed: Option<Code>, update: Update, verdict: Verdict, now: Now, later: Now)
    | OwnersJoined
    | Fetch(request: Request, action: AgentAction, now: Now, later: Now)
    | UserCloses
    | SignalAborts
    | AgentActs(action: AgentAction)
    | LookupStarts | LookupEnds
    | ConnectTimerFires
    | SocketFails(reset: bool)
    | SocketIsClosed
    | SocketEnds
    | HandshakeDone(pin: Option<Pin>, now: Now)
    | SocketIsAssigned(k: nat, same: bool, requestAborted: bool, now: Now)
    | ResponseArrives(k: nat, redirected: bool, closing: bool, malformed: bool)
    | BodyEnds(k: nat) | BodyFails(k: nat) | BodyIsCancelled(k: nat)
    | ExchangeTimerFires(k: nat) | RequestSignalAborts(k: nat)
    | RequestFails(k: nat, source: ErrorSource)
    | RequestCloses(k: nat)

  /** A request that still waits for its socket; only such a request makes the agent act. */
  predicate AwaitsSocket(op: Operation) {
    op.traffic.active.Some?
    && op.traffic.active.value < |op.traffic.exchanges|
    && !op.traffic.exchanges[op.traffic.active.value].socketSeen
  }

  /** What the runtime guarantees about the order of its callbacks, and nothing more. */
  predicate Enabled(op: Operation, e: Event) {
    match e
    case BeginPreparation(_, _, _) => op.stage.Start?
    case ChallengeIsRead(outcome, _) =>
      && op.stage.Challenging? && |op.traffic.exchanges| > 0
      && var x := op.traffic.exchanges[0];
        (match outcome
         case Answered => x.responded && x.done && x.failure.None?
         case ExchangeFailed(asTransport) => x.failure.Some? && (asTransport ==> x.responded)
         case Unusable => x.responded)
    case ChainIsReady(failed, _, _, _) => op.stage.PreparingChain?
    case PolicyIsRefreshed(failed, _, _, _, _) => op.stage.Refreshing?
    case OwnersJoined =>
      && op.stage.Closing? && (op.socket.isOpened ==> op.socket.closeSeen) && op.socket.lookups == 0
      && forall k | 0 <= k < |op.traffic.exchanges| :: op.traffic.exchanges[k].requestClosed
    case Fetch(_, _, _, _) => op.stage.Open?
    case UserCloses => op.stage.Open?
    case SignalAborts => true
    case AgentActs(_) => AwaitsSocket(op)
    case LookupStarts => op.socket.isOpened && !op.stage.Refused?
    case LookupEnds => op.socket.lookups > 0
    case ConnectTimerFires => op.socket.isOpened
    case SocketFails(_) => op.socket.isOpened
    case SocketIsClosed => op.socket.isOpened
    case SocketEnds => op.socket.isOpened
    case HandshakeDone(_, _) => op.socket.isOpened && !op.socket.closeSeen
    case SocketIsAssigned(k, same, _, _) => k < |op.traffic.exchanges| && (same ==> op.socket.isOpened)
    case ResponseArrives(k, _, _, _) =>
      k < |op.traffic.exchanges| && op.traffic.exchanges[k].dispatched && !op.traffic.exchanges[k].responded
    case BodyEnds(k) => k < |op.traffic.exchanges| && op.traffic.exchanges[k].responded
    case BodyFails(k) => k < |op.traffic.exchanges| && op.traffic.exchanges[k].responded
    case BodyIsCancelled(k) => k < |op.traffic.exchanges| && op.traffic.exchanges[k].responded
    case ExchangeTimerFires(k) => k < |op.traffic.exchanges|
    case RequestSignalAborts(k) => k < |op.traffic.exchanges|
    case RequestFails(k, source) =>
      && k < |op.traffic.exchanges|
      && (source.FromConnection? ==>
            && !op.traffic.exchanges[k].dispatched && source.why.phase == BeforeHttp
            && (source.why.minted ==> op.socket.minted))
    case RequestCloses(k) => k < |op.traffic.exchanges|
  }

  function Step(op: Operation, e: Event): Operation
    requires ActiveInRange(op) && Enabled(op, e)
  {
    match e
    case BeginPreparation(action, now, later) => Begin(op, action, now, later)
    case ChallengeIsRead(outcome, now) => ChallengeRead(op, outcome, now)
    case ChainIsReady(failed, v, now, later) => ChainReady(op, failed, v, now, later)
    case PolicyIsRefreshed(failed, u, v, now, later) => Refreshed(op, failed, u, v, now, later)
    case OwnersJoined => op.(flags := op.flags.(closedJoined := true), stage := Refused(op.stage.why))
    case Fetch(r, action, now, later) => StartExchange(op, r, false, action, now, later).0
    case UserCloses => Close(op)
    case SignalAborts => Close(op)
    case AgentActs(action) => AddRequest(op, action)
    case LookupStarts => op.(socket := op.socket.(lookups := op.socket.lookups + 1))
    case LookupEnds => op.(socket := op.socket.(lookups := op.socket.lookups - 1))
    case ConnectTimerFires => FinishConnect(op, true, true)
    case SocketFails(reset) => FinishConnect(op, true, reset)
    case SocketIsClosed => SocketClosed(op)
    case SocketEnds => op.(socket := op.socket.(gone := true))
    case HandshakeDone(pin, now) => SecureConnect(op, pin, now)
    case SocketIsAssigned(k, same, requestAborted, now) => SocketAssigned(op, k, same, requestAborted, now)
    case ResponseArrives(k, redirected, closing, malformed) => ResponseHead(op, k, redirected, closing, malformed)
    case BodyEnds(k) => op.(traffic := Finish(op.traffic, k))
    case BodyFails(k) => BodyFailed(op, k)
    case BodyIsCancelled(k) => Terminate(op, k, Sent(CancelledByCaller))
    case ExchangeTimerFires(k) => Terminate(op, k, ByWire(op.traffic.exchanges[k], TimedOut))
    case RequestSignalAborts(k) => Terminate(op, k, ByWire(op.traffic.exchanges[k], CancelledByCaller))
    case RequestFails(k, source) => RequestError(op, k, source)
    case RequestCloses(k) => op.(traffic := SetExchange(op.traffic, k, op.traffic.exchanges[k].(requestClosed := true)))
  }
}
