/** What holds in every run of the retained operation, for every interleaving of its handlers. */
module RetainedSafety {
  import opened Wrappers
  import opened Numbers
  import opened RetainedOperation

  // ---- The invariant ------------------------------------------------------------------------

  /** At most one exchange is in flight, and it is the last one admitted. */
  ghost predicate OneInFlight(t: Traffic) {
    && (t.active.Some? ==> t.active.value == |t.exchanges| - 1)
    && (t.busy <==> t.active.Some?)
    && forall k | 0 <= k < |t.exchanges| :: !t.exchanges[k].done <==> t.active == Some(k)
  }

  ghost predicate ExchangeOk(x: Exchange, k: nat, paidAttempted: bool, f: Flags, minted: bool) {
    && (x.challenge <==> k == 0)
    && (k > 0 ==> f.authorized)
    && (x.paid ==> !x.challenge && paidAttempted)
    && (x.dispatched ==> x.socketSeen && f.httpWritten)
    && (x.responded ==> x.dispatched)
    && (x.done && !x.responded ==> f.lost)
    && (x.failure.Some? ==> x.done)
    && (x.failure.Some? && x.failure.value.phase == BeforeHttp ==> !x.dispatched)
    && (x.failure.Some? && x.failure.value.minted ==> minted)
    && (f.refusal.Some? && !x.done ==> !x.dispatched)
  }

  ghost predicate ExchangesOk(t: Traffic, f: Flags, minted: bool) {
    && (forall k | 0 <= k < |t.exchanges| :: ExchangeOk(t.exchanges[k], k, t.paidAttempted, f, minted))
    && (forall i, j | 0 <= i < j < |t.exchanges| :: !(t.exchanges[i].paid && t.exchanges[j].paid))
  }

  ghost predicate SocketOk(s: Socket, f: Flags) {
    && s.connects == (if s.isOpened then 1 else 0)
    && (s.observedPin.Some? ==> s.handshakeComplete)
    && (s.handshakeComplete ==> s.isOpened)
    && (s.closeSeen ==> f.lost && s.isOpened)
    && (s.gone ==> s.isOpened)
    && (f.refusal.Some? ==> f.lost && f.refusal.value.phase == BeforeHttp && !f.refusal.value.minted)
    && (s.registered <==> s.minted)
    && (s.minted ==> s.settled && f.lost && !f.httpWritten)
  }

  ghost predicate AuthorizationOk(f: Flags, s: Socket, t: Terms) {
    && (f.authorized ==>
          f.attestedPin.Some? && s.observedPin == f.attestedPin && s.handshakeComplete && t.evidenceExpiry.At?)
    && (!f.authorized ==> f.attestedPin.None?)
  }

  /** The guard held when these bytes were released, and content went to the attested key. */
  ghost predicate DispatchOk(d: Dispatch, exchanges: seq<Exchange>, deadline: real, attestedPin: Option<Pin>) {
    && !d.now.aborted && d.now.mono < deadline
    && !Reached(d.evidenceExpiry, d.now.wall) && !Reached(d.approvalExpiry, d.now.wall)
    && d.exchange < |exchanges|
    && d.challenge == exchanges[d.exchange].challenge && d.paid == exchanges[d.exchange].paid
    && exchanges[d.exchange].dispatched
    && (!d.challenge ==> d.authorized && d.pin.Some? && d.pin == attestedPin && d.evidenceExpiry.At?)
  }

  ghost predicate LogOk(t: Traffic, deadline: real, f: Flags) {
    && (f.httpWritten <==> t.log != [])
    && (forall i | 0 <= i < |t.log| :: DispatchOk(t.log[i], t.exchanges, deadline, f.attestedPin))
    && (forall i, j | 0 <= i < j < |t.log| :: t.log[i].exchange < t.log[j].exchange)
  }

  ghost predicate StageOk(stage: Stage, f: Flags, s: Socket, t: Traffic) {
    && (stage.Start? <==> t.exchanges == [] && !stage.Closing? && !stage.Refused?)
    && (stage.Open? ==> f.authorized)
    && (f.authorized ==> t.exchanges != [])
    && (f.closed ==> !t.busy)
    && (stage.Closing? || stage.Refused? ==> f.closed && (stage.why.minted ==> s.minted))
    && (stage.Refused? <==> f.closedJoined)
    && (stage.Refused? ==>
          && (s.isOpened ==> s.closeSeen) && s.lookups == 0
          && forall k | 0 <= k < |t.exchanges| :: t.exchanges[k].requestClosed)
  }

  /** Everything but the stage, which the closing handlers set last. */
  ghost predicate Core(op: Operation) {
    && OneInFlight(op.traffic)
    && ExchangesOk(op.traffic, op.flags, op.socket.minted)
    && SocketOk(op.socket, op.flags)
    && AuthorizationOk(op.flags, op.socket, op.terms)
    && LogOk(op.traffic, op.terms.deadline, op.flags)
  }

  ghost predicate Inv(op: Operation) { Core(op) && StageOk(op.stage, op.flags, op.socket, op.traffic) }

  /** What no handler ever takes back, and what it never touches. */
  ghost predicate Grows(a: Operation, b: Operation) {
    && (a.flags.authorized ==> b.flags.authorized) && (a.flags.closed ==> b.flags.closed)
    && (a.flags.lost ==> b.flags.lost)
    && (a.flags.refusal.Some? ==> b.flags.refusal.Some?) && (a.flags.httpWritten ==> b.flags.httpWritten)
    && (a.flags.attestedPin.Some? ==> b.flags.attestedPin == a.flags.attestedPin)
    && (a.socket.isOpened ==> b.socket.isOpened) && (a.socket.gone ==> b.socket.gone)
    && (a.socket.minted ==> b.socket.minted)
    && (a.socket.handshakeComplete ==> b.socket.handshakeComplete && b.socket.observedPin == a.socket.observedPin)
    && (a.socket.closeSeen ==> b.socket.closeSeen)
    && b.terms.deadline == a.terms.deadline
    && TrafficGrows(a.traffic, b.traffic)
  }

  ghost predicate TrafficGrows(a: Traffic, b: Traffic) {
    && (a.paidAttempted ==> b.paidAttempted) && |a.exchanges| <= |b.exchanges| && a.log <= b.log
    && forall k | 0 <= k < |a.exchanges| ::
      && (a.exchanges[k].done ==> b.exchanges[k].done && b.exchanges[k].failure == a.exchanges[k].failure)
      && b.exchanges[k].paid == a.exchanges[k].paid
      && (a.exchanges[k].requestClosed ==> b.exchanges[k].requestClosed)
  }

  lemma InitialInv(deadline: real, approvalExpiry: Expiry, maxAgeMs: int, canRefresh: bool)
    ensures Inv(Initial(deadline, approvalExpiry, maxAgeMs, canRefresh))
  {}

  // ---- Changing one exchange ------------------------------------------------------------------

  /** An update of one exchange that keeps done, and what the log says about it. */
  lemma SetExchangeKeeps(t: Traffic, k: nat, x: Exchange, deadline: real, f: Flags, minted: bool)
    requires OneInFlight(t) && ExchangesOk(t, f, minted) && LogOk(t, deadline, f)
    requires k < |t.exchanges| && ExchangeOk(x, k, t.paidAttempted, f, minted)
    requires var y := t.exchanges[k];
      && x.done == y.done && x.failure == y.failure && x.challenge == y.challenge && x.paid == y.paid
      && (y.dispatched ==> x.dispatched) && (y.requestClosed ==> x.requestClosed)
    ensures OneInFlight(SetExchange(t, k, x)) && ExchangesOk(SetExchange(t, k, x), f, minted)
    ensures LogOk(SetExchange(t, k, x), deadline, f) && TrafficGrows(t, SetExchange(t, k, x))
  {
    hide ExchangeOk;
  }

  /** Ending an exchange, with or without a failure. */
  lemma EndExchangeKeeps(t: Traffic, k: nat, failure: Option<Failure>, deadline: real, f: Flags, minted: bool)
    requires OneInFlight(t) && ExchangesOk(t, f, minted) && LogOk(t, deadline, f)
    requires k < |t.exchanges| && !t.exchanges[k].done && (f.lost || t.exchanges[k].responded)
    requires failure.Some? ==>
      (failure.value.phase == BeforeHttp ==> !t.exchanges[k].dispatched) && (failure.value.minted ==> minted)
    ensures var t' := Finish(SetExchange(t, k, t.exchanges[k].(failure := failure)), k);
      && OneInFlight(t') && !t'.busy && ExchangesOk(t', f, minted) && LogOk(t', deadline, f) && TrafficGrows(t, t')
      && t'.log == t.log
  {
    hide *;
    var x := t.exchanges[k].(failure := failure, done := true);
    EndedOk(t, k, failure, f, minted);
    EndedTraffic(t, k, failure);
    EndedInFlight(t, k, x);
    EndedExchanges(t, k, x, f, minted);
    EndedLog(t, k, x, deadline, f);
  }

  lemma EndedOk(t: Traffic, k: nat, failure: Option<Failure>, f: Flags, minted: bool)
    requires ExchangesOk(t, f, minted) && k < |t.exchanges| && !t.exchanges[k].done
      && (f.lost || t.exchanges[k].responded)
    requires failure.Some? ==>
      (failure.value.phase == BeforeHttp ==> !t.exchanges[k].dispatched) && (failure.value.minted ==> minted)
    ensures ExchangeOk(t.exchanges[k].(failure := failure, done := true), k, t.paidAttempted, f, minted)
  {
    assert ExchangeOk(t.exchanges[k], k, t.paidAttempted, f, minted);
  }

  lemma EndedTraffic(t: Traffic, k: nat, failure: Option<Failure>)
    requires k < |t.exchanges| && !t.exchanges[k].done
    ensures Finish(SetExchange(t, k, t.exchanges[k].(failure := failure)), k)
      == Traffic(false, None, t.paidAttempted,
                 t.exchanges[k := t.exchanges[k].(failure := failure, done := true)], t.log)
  {}

  lemma EndedInFlight(t: Traffic, k: nat, x: Exchange)
    requires OneInFlight(t) && k < |t.exchanges| && !t.exchanges[k].done
    requires x == t.exchanges[k].(failure := x.failure, done := true)
    ensures var t' := Traffic(false, None, t.paidAttempted, t.exchanges[k := x], t.log);
      OneInFlight(t') && TrafficGrows(t, t')
  {}

  lemma EndedExchanges(t: Traffic, k: nat, x: Exchange, f: Flags, minted: bool)
    requires ExchangesOk(t, f, minted) && k < |t.exchanges|
    requires x == t.exchanges[k].(failure := x.failure, done := true) && ExchangeOk(x, k, t.paidAttempted, f, minted)
    ensures ExchangesOk(Traffic(false, None, t.paidAttempted, t.exchanges[k := x], t.log), f, minted)
  {
    hide ExchangeOk;
  }

  lemma EndedLog(t: Traffic, k: nat, x: Exchange, deadline: real, f: Flags)
    requires LogOk(t, deadline, f) && k < |t.exchanges| && x == t.exchanges[k].(failure := x.failure, done := true)
    ensures LogOk(Traffic(false, None, t.paidAttempted, t.exchanges[k := x], t.log), deadline, f)
  {
    var exchanges := t.exchanges[k := x];
    forall i | 0 <= i < |t.log| ensures DispatchOk(t.log[i], exchanges, deadline, f.attestedPin) {
      assert DispatchOk(t.log[i], t.exchanges, deadline, f.attestedPin);
    }
  }

  // ---- Each handler keeps the invariant ---------------------------------------------------------

  lemma LoseKeeps(op: Operation)
    requires Core(op)
    ensures Core(Lose(op)) && Grows(op, Lose(op))
  {
    WeakerFlags(op.traffic, op.flags, Lose(op).flags, op.socket.minted);
  }

  /** Raising lost, closed or the marks of an allowed dispatch never hurts the exchanges. */
  lemma WeakerFlags(t: Traffic, f: Flags, g: Flags, minted: bool)
    requires ExchangesOk(t, f, minted)
    requires g.authorized == f.authorized && g.httpWritten == f.httpWritten && g.refusal == f.refusal
      && (f.lost ==> g.lost)
    ensures ExchangesOk(t, g, minted)
  {}

  lemma TerminateKeeps(op: Operation, k: nat, why: Failure)
    requires Core(op) && k < |op.traffic.exchanges|
    requires why.phase == BeforeHttp ==> !op.traffic.exchanges[k].dispatched
    requires why.minted ==> op.socket.minted
    ensures Core(Terminate(op, k, why)) && Grows(op, Terminate(op, k, why))
    ensures Terminate(op, k, why).traffic.log == op.traffic.log
    ensures op.traffic.active == Some(k) ==> !Terminate(op, k, why).traffic.busy
  {
    hide ExchangesOk;
    hide LogOk;
    hide OneInFlight;
    if !op.traffic.exchanges[k].done {
      LoseKeeps(op);
      var lost := Lose(op);
      EndExchangeKeeps(lost.traffic, k, Some(why), lost.terms.deadline, lost.flags, lost.socket.minted);
    } else {
      ActiveIsNotDone(op.traffic, k);
    }
  }

  lemma ActiveIsNotDone(t: Traffic, k: nat)
    requires OneInFlight(t) && k < |t.exchanges| && t.exchanges[k].done
    ensures t.active != Some(k)
  {}

  lemma CloseKeeps(op: Operation)
    requires Core(op) && ActiveInRange(op)
    requires op.flags.closed ==> !op.traffic.busy
    ensures Core(Close(op)) && Grows(op, Close(op)) && Close(op).traffic.log == op.traffic.log
    ensures Close(op).flags.closed && !Close(op).traffic.busy
    ensures Close(op).flags.closedJoined == op.flags.closedJoined
    ensures |Close(op).traffic.exchanges| == |op.traffic.exchanges|
  {
    if op.flags.closed {
      GrowsReflexive(op);
      hide Core, Grows;
    } else {
      var closed := op.(flags := op.flags.(closed := true));
      MarkClosedKeeps(op);
      assert op.traffic.active.None? ==> !op.traffic.busy;
      hide Core, Grows, Terminate;
      if op.traffic.active.Some? {
        var k, why := op.traffic.active.value, Failure(CancelledByCaller, MayHaveDispatched, false);
        TerminateKeeps(closed, k, why);
        TerminateLeaves(closed, k, why);
        DestroyKeeps(Terminate(closed, k, why));
        GrowsTransitive(op, closed, Terminate(closed, k, why));
        GrowsTransitive(op, Terminate(closed, k, why), Close(op));
      } else {
        DestroyKeeps(closed);
        GrowsTransitive(op, closed, Close(op));
      }
    }
  }

  lemma MarkClosedKeeps(op: Operation)
    requires Core(op)
    ensures var closed := op.(flags := op.flags.(closed := true)); Core(closed) && Grows(op, closed)
  {
    WeakerFlags(op.traffic, op.flags, op.flags.(closed := true), op.socket.minted);
    hide ExchangesOk, OneInFlight;
  }

  lemma DestroyKeeps(op: Operation)
    requires Core(op)
    ensures var next := op.(socket := Destroyed(op.socket)); Core(next) && Grows(op, next)
  {
    hide ExchangesOk, OneInFlight, LogOk;
  }

  lemma FinishConnectKeeps(op: Operation, failed: bool, initialRetry: bool)
    requires Core(op) && op.socket.isOpened
    ensures Core(FinishConnect(op, failed, initialRetry)) && Grows(op, FinishConnect(op, failed, initialRetry))
  {
    var next := FinishConnect(op, failed, initialRetry);
    WeakerFlags(op.traffic, op.flags, next.flags, op.socket.minted);
    MintedMore(op.traffic, next.flags, op.socket.minted, next.socket.minted);
  }

  lemma MintedMore(t: Traffic, f: Flags, minted: bool, minted': bool)
    requires ExchangesOk(t, f, minted) && (minted ==> minted')
    ensures ExchangesOk(t, f, minted')
  {}

  lemma SecureConnectKeeps(op: Operation, pin: Option<Pin>, now: Now)
    requires Core(op) && op.socket.isOpened
    ensures Core(SecureConnect(op, pin, now)) && Grows(op, SecureConnect(op, pin, now))
  {
    if !op.socket.handshakeComplete {
      var shaken := op.(socket := op.socket.(handshakeComplete := true, observedPin := pin));
      assert op.socket.observedPin.None?;
      hide ExchangesOk;
      FinishConnectKeeps(shaken, if pin.None? then true else Guard(shaken, now).Some?, false);
    }
  }

  lemma SocketClosedKeeps(op: Operation)
    requires Core(op) && op.socket.isOpened
    ensures Core(SocketClosed(op)) && Grows(op, SocketClosed(op))
  {
    var seen := op.(flags := op.flags.(lost := true), socket := op.socket.(closeSeen := true));
    WeakerFlags(op.traffic, op.flags, seen.flags, op.socket.minted);
    FinishConnectKeeps(seen, true, false);
  }

  lemma AddRequestKeeps(op: Operation, action: AgentAction)
    requires Core(op) && AwaitsSocket(op)
    ensures Core(AddRequest(op, action)) && Grows(op, AddRequest(op, action))
    ensures AddRequest(op, action).traffic == op.traffic
    ensures AddRequest(op, action).flags.(refusal := op.flags.refusal, lost := op.flags.lost) == op.flags
  {
    hide Core, Grows, CreateConnection, ReuseSocket;
    match action
    case Connect(now) => ConnectKeeps(op, now);
    case Reuse(same, now) => ReuseKeeps(op, same, now);
    case Queue => GrowsReflexive(op);
  }

  lemma GrowsReflexive(a: Operation)
    ensures Grows(a, a)
  {}

  lemma ConnectKeeps(op: Operation, now: Now)
    requires Core(op)
    ensures Core(CreateConnection(op, now)) && Grows(op, CreateConnection(op, now))
    ensures CreateConnection(op, now).traffic == op.traffic && CreateConnection(op, now).flags == op.flags
  {
    hide OneInFlight, ExchangesOk, LogOk, GuardOf;
  }

  lemma ReuseKeeps(op: Operation, same: bool, now: Now)
    requires Core(op) && AwaitsSocket(op)
    ensures Core(ReuseSocket(op, same, now)) && Grows(op, ReuseSocket(op, same, now))
    ensures ReuseSocket(op, same, now).traffic == op.traffic
    ensures ReuseSocket(op, same, now).flags.(refusal := op.flags.refusal, lost := op.flags.lost) == op.flags
  {
    var next := ReuseSocket(op, same, now);
    GuardFailsBeforeHttp(op, now);
    ReuseFlags(op, same, now);
    RefusalKeeps(op.traffic, op.flags, next.flags, op.socket.minted);
    hide OneInFlight, ExchangesOk, GuardOf, ExchangeOk, DispatchOk;
  }

  lemma ReuseFlags(op: Operation, same: bool, now: Now)
    ensures var g := ReuseSocket(op, same, now).flags;
      && g == op.flags.(refusal := g.refusal, lost := g.lost) && (op.flags.lost ==> g.lost)
      && (g.refusal.None? ==> op.flags.refusal.None?)
  {}

  /** A refusal comes while the exchange in flight still waits for its socket. */
  lemma RefusalKeeps(t: Traffic, f: Flags, g: Flags, minted: bool)
    requires OneInFlight(t) && ExchangesOk(t, f, minted) && t.active.Some? && !t.exchanges[t.active.value].socketSeen
    requires g == f.(refusal := g.refusal, lost := g.lost) && (f.lost ==> g.lost)
      && (g.refusal.None? ==> f.refusal.None?)
    ensures ExchangesOk(t, g, minted)
  {}

  lemma AdmitKeeps(op: Operation, r: Request, challenge: bool, now: Now)
    requires Core(op) && (challenge <==> op.traffic.exchanges == []) && RequestFailure(op, r, challenge, now).None?
    ensures var next := op.(traffic := Admit(op.traffic, challenge, Paid(r, challenge)));
      Core(next) && Grows(op, next) && AwaitsSocket(next)
  {}

  /** The agent's reaction to an admitted exchange, and the last guard before its request ends. */
  lemma BegunKeeps(begun: Operation, k: nat, action: AgentAction, later: Now)
    requires Core(begun) && AwaitsSocket(begun) && k < |begun.traffic.exchanges|
      && !begun.traffic.exchanges[k].dispatched
    ensures var added := AddRequest(begun, action);
      var next := if Guard(added, later).Some? then Terminate(added, k, Guard(added, later).value) else added;
      && added.traffic == begun.traffic
      && Core(next) && Grows(begun, next) && next.traffic.log == begun.traffic.log
      && |next.traffic.exchanges| == |begun.traffic.exchanges|
      && next.flags.authorized == begun.flags.authorized && next.flags.closed == begun.flags.closed
      && next.flags.closedJoined == begun.flags.closedJoined && next.stage == begun.stage
  {
    var added := AddRequest(begun, action);
    AddRequestKeeps(begun, action);
    AddRequestFrame(begun, action);
    hide Core, Grows, GuardOf, AddRequest;
    if Guard(added, later).Some? {
      var why := Guard(added, later).value;
      GuardFailsBeforeHttp(added, later);
      TerminateKeeps(added, k, why);
      TerminateLeaves(added, k, why);
      GrowsTransitive(begun, added, Terminate(added, k, why));
    }
  }

  lemma TerminateLeaves(op: Operation, k: nat, why: Failure)
    requires k < |op.traffic.exchanges|
    ensures var next := Terminate(op, k, why);
      && |next.traffic.exchanges| == |op.traffic.exchanges| && next.stage == op.stage
      && next.flags.authorized == op.flags.authorized && next.flags.closed == op.flags.closed
      && next.flags.closedJoined == op.flags.closedJoined
  {}

  lemma RequestFailsBeforeHttp(op: Operation, r: Request, challenge: bool, now: Now)
    requires Core(op)
    ensures RequestFailure(op, r, challenge, now).Some? ==> !RequestFailure(op, r, challenge, now).value.minted
    ensures op.flags.closed ==> RequestFailure(op, r, challenge, now).Some?
  {
    GuardFailsBeforeHttp(op, now);
    hide Core;
  }

  lemma StartExchangeKeeps(op: Operation, r: Request, challenge: bool, action: AgentAction, now: Now, later: Now)
    requires Core(op) && (challenge <==> op.traffic.exchanges == [])
    ensures var (next, thrown) := StartExchange(op, r, challenge, action, now, later);
      && Core(next) && Grows(op, next) && next.traffic.log == op.traffic.log
      && (thrown.None? ==> next.traffic.exchanges != [])
      && (thrown.Some? ==> next == op && !thrown.value.minted)
      && next.flags.authorized == op.flags.authorized && next.flags.closed == op.flags.closed
      && next.flags.closedJoined == op.flags.closedJoined && next.stage == op.stage
      && (op.flags.closed ==> next == op)
  {
    hide Core, Grows, RequestFailure, GuardOf, AddRequest, Terminate;
    RequestFailsBeforeHttp(op, r, challenge, now);
    if RequestFailure(op, r, challenge, now).None? {
      AdmitKeeps(op, r, challenge, now);
      var begun := op.(traffic := Admit(op.traffic, challenge, Paid(r, challenge)));
      BegunKeeps(begun, |op.traffic.exchanges|, action, later);
      GrowsTransitive(op, begun, StartExchange(op, r, challenge, action, now, later).0);
    } else {
      GrowsReflexive(op);
    }
  }

  lemma GuardFailsBeforeHttp(op: Operation, now: Now)
    requires Core(op)
    ensures Guard(op, now).Some? ==> Guard(op, now).value.phase == BeforeHttp && !Guard(op, now).value.minted
  {}

  lemma GrowsTransitive(a: Operation, b: Operation, c: Operation)
    ensures Grows(a, b) && Grows(b, c) ==> Grows(a, c)
  {
    if Grows(a, b) && Grows(b, c) {
      assert a.traffic.log <= c.traffic.log;
    }
  }

  lemma ReleaseKeeps(op: Operation, k: nat, now: Now)
    requires Core(op) && k < |op.traffic.exchanges| && op.socket.isOpened
    requires Guard(op, now).None? && !op.traffic.exchanges[k].socketSeen
    ensures Core(Release(op, k, now)) && Grows(op, Release(op, k, now))
    ensures op.traffic.busy && op.traffic.active == Some(k)
  {
    var x := op.traffic.exchanges[k];
    assert ExchangeOk(x, k, op.traffic.paidAttempted, op.flags, op.socket.minted);
    assert !x.done;
    ReleaseKeepsExchanges(op, k, now);
    ReleaseKeepsLog(op, k, now);
  }

  lemma ReleaseKeepsExchanges(op: Operation, k: nat, now: Now)
    requires Core(op) && k < |op.traffic.exchanges| && Guard(op, now).None? && !op.traffic.exchanges[k].done
    ensures var next := Release(op, k, now);
      OneInFlight(next.traffic) && ExchangesOk(next.traffic, next.flags, next.socket.minted)
  {}

  lemma ReleaseKeepsLog(op: Operation, k: nat, now: Now)
    requires Core(op) && k < |op.traffic.exchanges| && Guard(op, now).None?
    requires !op.traffic.exchanges[k].done && !op.traffic.exchanges[k].dispatched
    ensures var next := Release(op, k, now); LogOk(next.traffic, next.terms.deadline, next.flags)
  {
    var next := Release(op, k, now);
    var t, t' := op.traffic, next.traffic;
    assert ExchangeOk(t.exchanges[k], k, t.paidAttempted, op.flags, op.socket.minted);
    assert k == |t.exchanges| - 1;
    forall i | 0 <= i < |t'.log|
      ensures DispatchOk(t'.log[i], t'.exchanges, next.terms.deadline, next.flags.attestedPin) {
      if i < |t.log| {
        assert t'.log[i] == t.log[i];
      }
    }
    forall i | 0 <= i < |t.log| ensures t.log[i].exchange < k {
      assert DispatchOk(t.log[i], t.exchanges, op.terms.deadline, op.flags.attestedPin);
    }
  }

  lemma TouchExchangeKeeps(op: Operation, k: nat, x: Exchange)
    requires Core(op) && k < |op.traffic.exchanges|
    requires ExchangeOk(x, k, op.traffic.paidAttempted, op.flags, op.socket.minted)
    requires var y := op.traffic.exchanges[k];
      && x.done == y.done && x.failure == y.failure && x.challenge == y.challenge && x.paid == y.paid
      && (y.dispatched ==> x.dispatched) && (y.requestClosed ==> x.requestClosed)
    ensures var next := op.(traffic := SetExchange(op.traffic, k, x));
      Core(next) && Grows(op, next) && next.traffic.log == op.traffic.log
  {
    SetExchangeKeeps(op.traffic, k, x, op.terms.deadline, op.flags, op.socket.minted);
    hide ExchangesOk;
    hide LogOk;
    hide OneInFlight;
  }

  lemma SocketAssignedKeeps(op: Operation, k: nat, same: bool, requestAborted: bool, now: Now)
    requires Core(op) && k < |op.traffic.exchanges| && (same ==> op.socket.isOpened)
    ensures Core(SocketAssigned(op, k, same, requestAborted, now))
    ensures Grows(op, SocketAssigned(op, k, same, requestAborted, now))
  {
    var x := op.traffic.exchanges[k];
    hide Core, Grows, Terminate, Release, GuardOf;
    if x.socketSeen {
      GrowsReflexive(op);
    } else if same && Guard(op, now).None? && !requestAborted {
      ReleaseKeeps(op, k, now);
    } else {
      SocketRefusedKeeps(op, k, now, if !same then Fail(ConnectionLost)
        else if Guard(op, now).Some? then Guard(op, now).value else Fail(CancelledByCaller));
    }
  }

  lemma SocketSeenKeeps(op: Operation, k: nat)
    requires Core(op) && k < |op.traffic.exchanges| && !op.traffic.exchanges[k].socketSeen
    ensures var seen := op.(traffic := SetExchange(op.traffic, k, op.traffic.exchanges[k].(socketSeen := true)));
      Core(seen) && Grows(op, seen) && !seen.traffic.exchanges[k].dispatched
  {
    var x := op.traffic.exchanges[k];
    assert ExchangeOk(x, k, op.traffic.paidAttempted, op.flags, op.socket.minted);
    TouchExchangeKeeps(op, k, x.(socketSeen := true));
    hide Core, Grows;
  }

  lemma SocketRefusedKeeps(op: Operation, k: nat, now: Now, why: Failure)
    requires Core(op) && k < |op.traffic.exchanges| && !op.traffic.exchanges[k].socketSeen
    requires Some(why) in [Guard(op, now), Some(Fail(ConnectionLost)), Some(Fail(CancelledByCaller))]
    ensures var seen := op.(traffic := SetExchange(op.traffic, k, op.traffic.exchanges[k].(socketSeen := true)));
      Core(Terminate(seen, k, why)) && Grows(op, Terminate(seen, k, why))
  {
    hide Core, Grows, Terminate, GuardOf;
    var seen := op.(traffic := SetExchange(op.traffic, k, op.traffic.exchanges[k].(socketSeen := true)));
    SocketSeenKeeps(op, k);
    GuardFailsBeforeHttp(op, now);
    TerminateKeeps(seen, k, why);
    GrowsTransitive(op, seen, Terminate(seen, k, why));
  }

  lemma RespondedKeeps(op: Operation, k: nat)
    requires Core(op) && k < |op.traffic.exchanges| && op.traffic.exchanges[k].dispatched
    ensures var headed := op.(traffic := SetExchange(op.traffic, k, op.traffic.exchanges[k].(responded := true)));
      Core(headed) && Grows(op, headed)
  {
    var x := op.traffic.exchanges[k];
    assert ExchangeOk(x, k, op.traffic.paidAttempted, op.flags, op.socket.minted);
    TouchExchangeKeeps(op, k, x.(responded := true));
    hide Core, Grows;
  }

  lemma SentTerminationKeeps(op: Operation, base: Operation, k: nat, code: Code)
    requires Core(base) && Grows(op, base) && k < |base.traffic.exchanges|
    ensures Core(Terminate(base, k, Sent(code))) && Grows(op, Terminate(base, k, Sent(code)))
  {
    hide Core, Grows, Terminate;
    TerminateKeeps(base, k, Sent(code));
    GrowsTransitive(op, base, Terminate(base, k, Sent(code)));
  }

  lemma ResponseHeadKeeps(op: Operation, k: nat, redirected: bool, closing: bool, malformed: bool)
    requires Core(op) && k < |op.traffic.exchanges| && op.traffic.exchanges[k].dispatched
    ensures Core(ResponseHead(op, k, redirected, closing, malformed))
    ensures Grows(op, ResponseHead(op, k, redirected, closing, malformed))
  {
    hide Core, Grows, Terminate, Sent;
    RespondedKeeps(op, k);
    var x := op.traffic.exchanges[k];
    var headed := op.(traffic := SetExchange(op.traffic, k, x.(responded := true)));
    if redirected {
      SentTerminationKeeps(op, headed, k, Redirected);
    } else if closing && !x.paid {
      SentTerminationKeeps(op, headed, k, ConnectionLost);
    } else {
      var drained := headed.(flags := headed.flags.(lost := headed.flags.lost || closing));
      DrainKeeps(headed, closing);
      GrowsTransitive(op, headed, drained);
      if malformed { SentTerminationKeeps(op, drained, k, Transport); }
    }
  }

  lemma DrainKeeps(op: Operation, closing: bool)
    requires Core(op)
    ensures var next := op.(flags := op.flags.(lost := op.flags.lost || closing)); Core(next) && Grows(op, next)
  {
    WeakerFlags(op.traffic, op.flags, op.flags.(lost := op.flags.lost || closing), op.socket.minted);
    hide ExchangesOk, OneInFlight;
  }

  lemma GiveUpKeeps(op: Operation, why: Failure)
    requires Inv(op) && ActiveInRange(op) && !op.stage.Closing? && !op.stage.Refused?
    requires why.minted ==> op.socket.minted
    ensures Inv(GiveUp(op, why)) && Grows(op, GiveUp(op, why)) && GiveUp(op, why).traffic.log == op.traffic.log
  {
    CloseKeeps(op);
    hide Core;
    hide Grows;
  }

  /** What handlers outside the preparation leave alone. */
  ghost predicate SameFrame(op: Operation, next: Operation) {
    && next.stage == op.stage && next.flags.authorized == op.flags.authorized
    && next.flags.closedJoined == op.flags.closedJoined && next.socket.lookups == op.socket.lookups
    && |next.traffic.exchanges| == |op.traffic.exchanges|
    && (op.flags.closed ==> next.socket.isOpened == op.socket.isOpened)
    && (next.flags.closed ==> !next.traffic.busy)
  }

  lemma StageStays(op: Operation, next: Operation)
    requires Inv(op) && Core(next) && Grows(op, next) && SameFrame(op, next)
    ensures Inv(next)
  {
    hide Core;
  }

  lemma DecideKeeps(op: Operation, v: Verdict, now: Now)
    requires Inv(op) && (op.stage.PreparingChain? || op.stage.Refreshing?)
    ensures Inv(Decide(op, v, now)) && Grows(op, Decide(op, v, now)) && Decide(op, v, now).traffic.log == op.traffic.log
  {
    var expiry := if v.issuedAtMs.Some? then v.issuedAtMs.value + op.terms.maxAgeMs else 0;
    if v.accepted && v.bindingPin.Some? && v.bindingPin == op.socket.observedPin && 0 < expiry <= MAX_SAFE_INTEGER {
      var granted := op.(terms := op.terms.(evidenceExpiry := At(expiry as real)),
                         flags := op.flags.(authorized := true, attestedPin := v.bindingPin));
      GrantKeeps(op, expiry, v.bindingPin);
      GuardFailsBeforeHttp(granted, now);
      OpenKeeps(granted);
      hide Inv, Grows, GiveUp;
      GrowsTransitive(op, granted, granted.(stage := Open));
      if Guard(granted, now).Some? {
        GiveUpKeeps(granted, Guard(granted, now).value);
        GrowsTransitive(op, granted, Decide(op, v, now));
      }
    } else {
      hide Inv, Grows, GiveUp;
      GiveUpKeeps(op, Fail(Untrusted));
    }
  }

  lemma OpenKeeps(op: Operation)
    requires Inv(op) && op.flags.authorized && (op.stage.PreparingChain? || op.stage.Refreshing?)
    ensures Inv(op.(stage := Open)) && Grows(op, op.(stage := Open))
  {
    hide OneInFlight, ExchangesOk, LogOk;
  }

  lemma GrantKeeps(op: Operation, expiry: int, pin: Option<Pin>)
    requires Inv(op) && (op.stage.PreparingChain? || op.stage.Refreshing?)
    requires pin.Some? && pin == op.socket.observedPin
    ensures var granted := op.(terms := op.terms.(evidenceExpiry := At(expiry as real)),
                               flags := op.flags.(authorized := true, attestedPin := pin));
      Inv(granted) && Grows(op, granted)
  {}

  lemma BeginKeeps(op: Operation, action: AgentAction, now: Now, later: Now)
    requires Inv(op) && op.stage.Start?
    ensures Inv(Begin(op, action, now, later)) && Grows(op, Begin(op, action, now, later))
    ensures Begin(op, action, now, later).traffic.log == op.traffic.log
  {
    StartExchangeKeeps(op, ChallengeRequest, true, action, now, later);
    var (started, thrown) := StartExchange(op, ChallengeRequest, true, action, now, later);
    hide StartExchange;
    if thrown.Some? {
      GiveUpKeeps(op, thrown.value);
    } else {
      var next := started.(stage := Challenging);
      assert Grows(started, next) && Core(next);
      hide Core;
      GrowsTransitive(op, started, next);
    }
  }

  predicate OnPreparation(e: Event) {
    e.BeginPreparation? || e.ChallengeIsRead? || e.ChainIsReady? || e.PolicyIsRefreshed?
  }

  lemma PreparationKeeps(op: Operation, e: Event)
    requires Inv(op) && Enabled(op, e) && OnPreparation(e)
    ensures Inv(Step(op, e)) && Grows(op, Step(op, e)) && Step(op, e).traffic.log == op.traffic.log
  {
    assert |op.traffic.exchanges| > 0 ==>
      ExchangeOk(op.traffic.exchanges[0], 0, op.traffic.paidAttempted, op.flags, op.socket.minted);
    hide Inv, Grows, Begin, ChallengeRead, ChainReady, Refreshed;
    match e
    case BeginPreparation(action, now, later) => BeginKeeps(op, action, now, later);
    case ChallengeIsRead(outcome, now) => ChallengeReadKeeps(op, outcome, now);
    case ChainIsReady(failed, v, now, later) => ChainReadyKeeps(op, failed, v, now, later);
    case PolicyIsRefreshed(failed, u, v, now, later) => RefreshedKeeps(op, failed, u, v, now, later);
  }

  lemma ChallengeReadKeeps(op: Operation, outcome: Challenge, now: Now)
    requires Inv(op) && Enabled(op, ChallengeIsRead(outcome, now))
    ensures var next := ChallengeRead(op, outcome, now);
      Inv(next) && Grows(op, next) && next.traffic.log == op.traffic.log
  {
    GuardFailsBeforeHttp(op, now);
    var x := op.traffic.exchanges[0];
    assert ExchangeOk(x, 0, op.traffic.paidAttempted, op.flags, op.socket.minted);
    if !outcome.Answered? || Guard(op, now).Some? {
      hide Core, StageOk, Grows, GiveUp;
      GiveUpKeeps(op, if outcome.Answered? then Guard(op, now).value else ChallengeFailure(op, outcome));
    } else {
      hide Core;
    }
  }

  lemma ChainReadyKeeps(op: Operation, failed: Option<Code>, v: Verdict, now: Now, later: Now)
    requires Inv(op) && op.stage.PreparingChain?
    ensures var next := ChainReady(op, failed, v, now, later);
      Inv(next) && Grows(op, next) && next.traffic.log == op.traffic.log
  {
    GuardFailsBeforeHttp(op, now);
    if failed.None? && Guard(op, now).None? && v.moved && !v.accepted && op.terms.canRefresh {
      hide Core;
    } else {
      hide Inv, Grows, GiveUp, Decide;
      if failed.Some? || Guard(op, now).Some? {
        GiveUpKeeps(op, if failed.Some? then Fail(failed.value) else Guard(op, now).value);
      } else {
        DecideKeeps(op, v, later);
      }
    }
  }

  lemma RefreshedKeeps(op: Operation, failed: Option<Code>, u: Update, v: Verdict, now: Now, later: Now)
    requires Inv(op) && op.stage.Refreshing?
    ensures var next := Refreshed(op, failed, u, v, now, later);
      Inv(next) && Grows(op, next) && next.traffic.log == op.traffic.log
  {
    if failed.Some? {
      GiveUpKeeps(op, Fail(failed.value));
    } else if UpdateFailure(op, u).Some? {
      GiveUpKeeps(op, UpdateFailure(op, u).value);
    } else {
      var updated := op.(terms := op.terms.(maxAgeMs := u.maxAgeMs, approvalExpiry := u.approvalExpiry));
      assert Inv(updated) && Grows(op, updated);
      GuardFailsBeforeHttp(updated, now);
      hide Inv;
      hide Grows;
      if Guard(updated, now).Some? {
        GiveUpKeeps(updated, Guard(updated, now).value);
        GrowsTransitive(op, updated, GiveUp(updated, Guard(updated, now).value));
      } else {
        DecideKeeps(updated, v, later);
        GrowsTransitive(op, updated, Decide(updated, v, later));
      }
    }
  }

  predicate OnExchange(e: Event) {
    || e.SocketIsAssigned? || e.ResponseArrives? || e.BodyEnds? || e.BodyFails? || e.BodyIsCancelled?
    || e.ExchangeTimerFires? || e.RequestSignalAborts? || e.RequestFails? || e.RequestCloses?
  }

  lemma BodyEndKeeps(op: Operation, k: nat)
    requires Core(op) && k < |op.traffic.exchanges| && op.traffic.exchanges[k].responded
    ensures var next := op.(traffic := Finish(op.traffic, k)); Core(next) && Grows(op, next)
  {
    var x := op.traffic.exchanges[k];
    assert ExchangeOk(x, k, op.traffic.paidAttempted, op.flags, op.socket.minted);
    if !x.done {
      assert x == x.(failure := None);
      EndExchangeKeeps(op.traffic, k, None, op.terms.deadline, op.flags, op.socket.minted);
      assert SetExchange(op.traffic, k, x) == op.traffic;
    }
    hide ExchangesOk, LogOk, OneInFlight, Finish;
  }

  lemma BodyFailedKeeps(op: Operation, k: nat)
    requires Core(op) && k < |op.traffic.exchanges|
    ensures Core(BodyFailed(op, k)) && Grows(op, BodyFailed(op, k))
  {
    hide Core, Grows, Lose, Terminate;
    LoseKeeps(op);
    TerminateKeeps(op, k, Sent(Transport));
  }

  lemma RequestErrorKeeps(op: Operation, k: nat, source: ErrorSource)
    requires Core(op) && Enabled(op, RequestFails(k, source))
    ensures Core(RequestError(op, k, source)) && Grows(op, RequestError(op, k, source))
  {
    var x := op.traffic.exchanges[k];
    assert ExchangeOk(x, k, op.traffic.paidAttempted, op.flags, op.socket.minted);
    var why := if op.flags.refusal.Some? then op.flags.refusal.value
               else if source.FromConnection? then source.why else ByWire(x, Transport);
    if !x.done {
      assert why.phase == BeforeHttp ==> !x.dispatched;
      hide Core, Grows, Terminate;
      TerminateKeeps(op, k, why);
    }
  }

  predicate Cuts(e: Event) { e.BodyIsCancelled? || e.ExchangeTimerFires? || e.RequestSignalAborts? }

  lemma CutKeepsCore(op: Operation, e: Event)
    requires Core(op) && Enabled(op, e) && Cuts(e)
    ensures ActiveInRange(op) ==> Core(Step(op, e)) && Grows(op, Step(op, e))
  {
    hide Core, Grows, Terminate;
    var x := op.traffic.exchanges[e.k];
    match e
    case BodyIsCancelled(k) => TerminateKeeps(op, k, Sent(CancelledByCaller));
    case ExchangeTimerFires(k) => TerminateKeeps(op, k, ByWire(x, TimedOut));
    case RequestSignalAborts(k) => TerminateKeeps(op, k, ByWire(x, CancelledByCaller));
  }

  lemma ExchangeEventKeepsCore(op: Operation, e: Event)
    requires Inv(op) && ActiveInRange(op) && Enabled(op, e) && OnExchange(e)
    ensures Core(Step(op, e)) && Grows(op, Step(op, e))
  {
    hide Core, Grows, StageOk, Terminate, ResponseHead, SocketAssigned, RequestError, Finish, BodyFailed, SetExchange;
    if Cuts(e) {
      hide *;
      assert Core(op) by { InvIsCore(op); }
      CutKeepsCore(op, e);
    } else {
      match e {
        case SocketIsAssigned(k, same, requestAborted, now) => SocketAssignedKeeps(op, k, same, requestAborted, now);
        case ResponseArrives(k, redirected, closing, malformed) =>
          ResponseHeadKeeps(op, k, redirected, closing, malformed);
        case BodyEnds(k) => BodyEndKeeps(op, k);
        case BodyFails(k) => BodyFailedKeeps(op, k);
        case RequestFails(k, source) => RequestErrorKeeps(op, k, source);
        case RequestCloses(k) => RequestCloseKeeps(op, k);
      }
    }
  }

  lemma InvIsCore(op: Operation)
    requires Inv(op)
    ensures Core(op)
  {}

  lemma RequestCloseKeeps(op: Operation, k: nat)
    requires Core(op) && k < |op.traffic.exchanges|
    ensures var next := Step(op, RequestCloses(k)); Core(next) && Grows(op, next)
  {
    var x := op.traffic.exchanges[k];
    assert ExchangeOk(x, k, op.traffic.paidAttempted, op.flags, op.socket.minted);
    TouchExchangeKeeps(op, k, x.(requestClosed := true));
    hide Core, Grows;
  }

  lemma TerminateFrame(op: Operation, k: nat, why: Failure)
    requires k < |op.traffic.exchanges| && (op.flags.closed ==> !op.traffic.busy)
    ensures SameFrame(op, Terminate(op, k, why))
  {}

  lemma FrameTransitive(a: Operation, b: Operation, c: Operation)
    requires SameFrame(a, b) && SameFrame(b, c) && (a.flags.closed ==> b.flags.closed)
    ensures SameFrame(a, c)
  {}

  lemma SocketAssignedFrame(op: Operation, k: nat, same: bool, requestAborted: bool, now: Now)
    requires k < |op.traffic.exchanges| && (op.flags.closed ==> !op.traffic.busy)
    ensures SameFrame(op, SocketAssigned(op, k, same, requestAborted, now))
  {
    var x := op.traffic.exchanges[k];
    if !x.socketSeen {
      var seen := op.(traffic := SetExchange(op.traffic, k, x.(socketSeen := true)));
      assert SameFrame(op, seen);
      assert SameFrame(op, Release(op, k, now));
      hide SameFrame;
      hide Release;
      hide Terminate;
      var why := if !same then Fail(ConnectionLost)
                 else if Guard(op, now).Some? then Guard(op, now).value
                 else Fail(CancelledByCaller);
      TerminateFrame(seen, k, why);
      FrameTransitive(op, seen, Terminate(seen, k, why));
    }
  }

  lemma TerminatedFrame(op: Operation, base: Operation, k: nat, why: Failure)
    requires SameFrame(op, base) && (op.flags.closed ==> base.flags.closed) && k < |base.traffic.exchanges|
    ensures SameFrame(op, Terminate(base, k, why))
  {
    assert base.flags.closed ==> !base.traffic.busy;
    hide SameFrame, Terminate;
    TerminateFrame(base, k, why);
    FrameTransitive(op, base, Terminate(base, k, why));
  }

  lemma DrainedFrame(op: Operation, k: nat, closing: bool)
    requires k < |op.traffic.exchanges| && (op.flags.closed ==> !op.traffic.busy)
    ensures var headed := op.(traffic := SetExchange(op.traffic, k, op.traffic.exchanges[k].(responded := true)));
      && SameFrame(op, headed) && SameFrame(op, headed.(flags := headed.flags.(lost := headed.flags.lost || closing)))
  {}

  lemma ResponseHeadFrame(op: Operation, k: nat, redirected: bool, closing: bool, malformed: bool)
    requires k < |op.traffic.exchanges| && (op.flags.closed ==> !op.traffic.busy)
    ensures SameFrame(op, ResponseHead(op, k, redirected, closing, malformed))
  {
    hide SameFrame, Terminate, Sent;
    var x := op.traffic.exchanges[k];
    var headed := op.(traffic := SetExchange(op.traffic, k, x.(responded := true)));
    var drained := headed.(flags := headed.flags.(lost := headed.flags.lost || closing));
    DrainedFrame(op, k, closing);
    if redirected {
      TerminatedFrame(op, headed, k, Sent(Redirected));
    } else if closing && !x.paid {
      TerminatedFrame(op, headed, k, Sent(ConnectionLost));
    } else if malformed {
      TerminatedFrame(op, drained, k, Sent(Transport));
    }
  }

  lemma CutFrame(op: Operation, e: Event)
    requires ActiveInRange(op) && Enabled(op, e) && Cuts(e) && (op.flags.closed ==> !op.traffic.busy)
    ensures SameFrame(op, Step(op, e))
  {
    hide Terminate, SameFrame;
    var x := op.traffic.exchanges[e.k];
    match e
    case BodyIsCancelled(k) => TerminateFrame(op, k, Sent(CancelledByCaller));
    case ExchangeTimerFires(k) => TerminateFrame(op, k, ByWire(x, TimedOut));
    case RequestSignalAborts(k) => TerminateFrame(op, k, ByWire(x, CancelledByCaller));
  }

  lemma ClosedIsIdle(op: Operation)
    requires Inv(op)
    ensures op.flags.closed ==> !op.traffic.busy
  {
    hide Core;
  }

  lemma ExchangeEventFrame(op: Operation, e: Event)
    requires Inv(op) && ActiveInRange(op) && Enabled(op, e) && OnExchange(e)
    ensures SameFrame(op, Step(op, e))
  {
    hide Inv, Terminate, SameFrame, ResponseHead, SocketAssigned, Finish, SetExchange, BodyFailed, RequestError;
    ClosedIsIdle(op);
    if Cuts(e) {
      hide *;
      CutFrame(op, e);
    } else {
      match e {
        case SocketIsAssigned(k, same, requestAborted, now) => SocketAssignedFrame(op, k, same, requestAborted, now);
        case ResponseArrives(k, redirected, closing, malformed) =>
          ResponseHeadFrame(op, k, redirected, closing, malformed);
        case BodyEnds(k) => QuietFrame(op, k);
        case BodyFails(k) => BodyFailedFrame(op, k);
        case RequestFails(k, source) => RequestErrorFrame(op, k, source);
        case RequestCloses(k) => QuietFrame(op, k);
      }
    }
  }

  lemma QuietFrame(op: Operation, k: nat)
    requires k < |op.traffic.exchanges| && (op.flags.closed ==> !op.traffic.busy)
    ensures SameFrame(op, op.(traffic := Finish(op.traffic, k)))
    ensures SameFrame(op, op.(traffic := SetExchange(op.traffic, k, op.traffic.exchanges[k].(requestClosed := true))))
  {}

  lemma BodyFailedFrame(op: Operation, k: nat)
    requires k < |op.traffic.exchanges| && (op.flags.closed ==> !op.traffic.busy)
    ensures SameFrame(op, BodyFailed(op, k))
  {
    hide Terminate;
    TerminateFrame(op, k, Sent(Transport));
  }

  lemma RequestErrorFrame(op: Operation, k: nat, source: ErrorSource)
    requires k < |op.traffic.exchanges| && (op.flags.closed ==> !op.traffic.busy)
    ensures SameFrame(op, RequestError(op, k, source))
  {
    hide Terminate, SameFrame;
    TerminateFrame(op, k, if op.flags.refusal.Some? then op.flags.refusal.value
                          else if source.FromConnection? then source.why
                          else ByWire(op.traffic.exchanges[k], Transport));
  }

  predicate OnSocket(e: Event) {
    e.ConnectTimerFires? || e.SocketFails? || e.SocketIsClosed? || e.SocketEnds? || e.HandshakeDone? || e.AgentActs?
  }

  lemma SocketEndsKeeps(op: Operation)
    requires Core(op) && op.socket.isOpened
    ensures var next := op.(socket := op.socket.(gone := true)); Core(next) && Grows(op, next)
  {
    hide ExchangesOk, OneInFlight, LogOk;
  }

  lemma SocketEventKeepsCore(op: Operation, e: Event)
    requires Inv(op) && ActiveInRange(op) && Enabled(op, e) && OnSocket(e)
    ensures Core(Step(op, e)) && Grows(op, Step(op, e))
  {
    hide Core, Grows, StageOk, FinishConnect, SocketClosed, SecureConnect, AddRequest;
    match e {
      case ConnectTimerFires => FinishConnectKeeps(op, true, true);
      case SocketFails(reset) => FinishConnectKeeps(op, true, reset);
      case SocketIsClosed => SocketClosedKeeps(op);
      case SocketEnds => SocketEndsKeeps(op);
      case HandshakeDone(pin, now) => SecureConnectKeeps(op, pin, now);
      case AgentActs(action) => AddRequestKeeps(op, action);
    }
  }

  /** What a socket handler leaves alone. */
  ghost predicate SocketFrame(op: Operation, next: Operation) {
    && next.traffic == op.traffic && next.stage == op.stage && next.socket.lookups == op.socket.lookups
    && next.flags.authorized == op.flags.authorized && next.flags.closedJoined == op.flags.closedJoined
    && next.flags.closed == op.flags.closed && (op.flags.closed ==> next.socket.isOpened == op.socket.isOpened)
  }

  lemma FinishConnectFrame(op: Operation, failed: bool, initialRetry: bool)
    ensures SocketFrame(op, FinishConnect(op, failed, initialRetry))
  {}

  lemma SecureConnectFrame(op: Operation, pin: Option<Pin>, now: Now)
    ensures SocketFrame(op, SecureConnect(op, pin, now))
  {
    hide GuardOf, FinishConnect;
    var shaken := op.(socket := op.socket.(handshakeComplete := true));
    var pinned := op.(socket := op.socket.(handshakeComplete := true, observedPin := pin));
    FinishConnectFrame(shaken, true, false);
    FinishConnectFrame(pinned, Guard(pinned, now).Some?, false);
  }

  lemma SocketClosedFrame(op: Operation)
    ensures SocketFrame(op, SocketClosed(op))
  {
    hide FinishConnect;
    FinishConnectFrame(op.(flags := op.flags.(lost := true), socket := op.socket.(closeSeen := true)), true, false);
  }

  lemma AddRequestFrame(op: Operation, action: AgentAction)
    ensures SocketFrame(op, AddRequest(op, action))
  {
    match action
    case Connect(now) =>
    case Reuse(same, now) => hide GuardOf;
    case Queue =>
  }

  lemma SocketEventFrame(op: Operation, e: Event)
    requires ActiveInRange(op) && Enabled(op, e) && OnSocket(e)
    ensures SocketFrame(op, Step(op, e))
  {
    hide SocketFrame, FinishConnect, SocketClosed, SecureConnect, AddRequest;
    match e
    case ConnectTimerFires => FinishConnectFrame(op, true, true);
    case SocketFails(reset) => FinishConnectFrame(op, true, reset);
    case SocketIsClosed => SocketClosedFrame(op);
    case SocketEnds => SocketEndsFrame(op);
    case HandshakeDone(pin, now) => SecureConnectFrame(op, pin, now);
    case AgentActs(action) => AddRequestFrame(op, action);
  }

  lemma SocketEndsFrame(op: Operation)
    ensures SocketFrame(op, op.(socket := op.socket.(gone := true)))
  {}

  lemma SocketFrameIsFrame(op: Operation, next: Operation)
    requires Inv(op) && SocketFrame(op, next)
    ensures SameFrame(op, next)
  {
    hide Core;
  }

  lemma SocketEventKeeps(op: Operation, e: Event)
    requires Inv(op) && ActiveInRange(op) && Enabled(op, e) && OnSocket(e)
    ensures Inv(Step(op, e)) && Grows(op, Step(op, e)) && SocketFrame(op, Step(op, e))
  {
    hide *;
    SocketEventKeepsCore(op, e);
    SocketEventFrame(op, e);
    SocketFrameIsFrame(op, Step(op, e));
    StageStays(op, Step(op, e));
  }

  /** Every enabled handler keeps the invariant and takes nothing back. */
  lemma StepKeeps(op: Operation, e: Event)
    requires Inv(op) && ActiveInRange(op) && Enabled(op, e)
    ensures Inv(Step(op, e)) && Grows(op, Step(op, e))
  {
    if OnExchange(e) {
      hide *;
      ExchangeEventKeepsCore(op, e);
      ExchangeEventFrame(op, e);
      StageStays(op, Step(op, e));
    } else if OnSocket(e) {
      hide *;
      SocketEventKeeps(op, e);
    } else if OnPreparation(e) {
      hide *;
      PreparationKeeps(op, e);
    } else {
      hide Inv, Grows, Close, StartExchange;
      match e {
        case OwnersJoined => JoinKeeps(op);
        case LookupStarts => LookupKeeps(op, e);
        case LookupEnds => LookupKeeps(op, e);
        case Fetch(r, action, now, later) => FetchKeeps(op, r, action, now, later);
        case UserCloses => CloseStepKeeps(op);
        case SignalAborts => CloseStepKeeps(op);
      }
    }
  }

  lemma JoinKeeps(op: Operation)
    requires Inv(op) && ActiveInRange(op) && Enabled(op, OwnersJoined)
    ensures Inv(Step(op, OwnersJoined)) && Grows(op, Step(op, OwnersJoined))
  {
    WeakerFlags(op.traffic, op.flags, op.flags.(closedJoined := true), op.socket.minted);
    hide ExchangesOk, OneInFlight;
  }

  lemma LookupKeeps(op: Operation, e: Event)
    requires Inv(op) && ActiveInRange(op) && Enabled(op, e) && (e.LookupStarts? || e.LookupEnds?)
    ensures Inv(Step(op, e)) && Grows(op, Step(op, e))
  {
    hide ExchangesOk, LogOk, OneInFlight;
  }

  lemma FetchKeeps(op: Operation, r: Request, action: AgentAction, now: Now, later: Now)
    requires Inv(op) && op.stage.Open?
    ensures var next := StartExchange(op, r, false, action, now, later).0; Inv(next) && Grows(op, next)
  {
    StartExchangeKeeps(op, r, false, action, now, later);
    hide Core;
    hide StartExchange;
  }

  lemma CloseStepKeeps(op: Operation)
    requires Inv(op) && ActiveInRange(op)
    ensures Inv(Close(op)) && Grows(op, Close(op))
  {
    CloseKeeps(op);
    CloseFrame(op);
    var next := Close(op);
    hide Core;
    hide Close;
    StageStays(op, next);
  }

  lemma CloseFrame(op: Operation)
    requires ActiveInRange(op)
    ensures Close(op).stage == op.stage && Close(op).flags.authorized == op.flags.authorized
    ensures Close(op).socket.lookups == op.socket.lookups && Close(op).socket.isOpened == op.socket.isOpened
  {}
}
