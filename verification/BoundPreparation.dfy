/**
 * Preparing a bound connection: at most one fresh attempt, and only after the first
 * attempt's own connection failure has been handed in as a one-time capability.
 */
module BoundPreparation {
  import opened Wrappers
  import opened RetainedOperation
  import opened RetainedSafety
  import opened RetainedRuns

  datatype Policy = Approved | NoPolicy | PolicyThrows

  /** What the world does to one attempt, with the clock and abort readings the client takes. */
  datatype Attempt = Attempt(
    policy: Policy,
    abortedBefore: bool, started: real,
    run: seq<Operation>, events: seq<Event>,     // openRetainedGatewayOperation, from its start to its settling
    abortedAfter: bool, caught: real)

  /** ConfidentialError codes; Rethrown is an error of the policy source, passed on as it is. */
  datatype ErrorCode = Cancelled | MeasurementUntrusted | UnsupportedRequest
      | AttestationUntrusted | AttestationFailed | Rethrown

  function Translate(code: Code): ErrorCode {
    match code
    case CancelledByCaller => Cancelled
    case Expired => MeasurementUntrusted
    case Configuration => UnsupportedRequest
    case Untrusted => AttestationUntrusted
    case _ => AttestationFailed
  }

  function Final(a: Attempt): Operation
    requires a.run != []
  {
    a.run[|a.run| - 1]
  }

  function Remaining(a: Attempt, deadline: real): int { (deadline - a.started).Floor }

  /** The attempt ran to its end, under a deadline that is never later than the shared one. */
  ghost predicate Settles(a: Attempt, deadline: real) {
    && IsRun(a.run, a.events)
    && (Final(a).stage.Open? || Final(a).stage.Refused?)
    && a.run[0].terms.deadline <= deadline
  }

  /** The first attempt left nothing behind: nothing sent, nothing shaken, every owner joined. */
  ghost predicate CleanFailure(op: Operation) {
    && op.stage.Refused? && op.stage.why.minted && op.flags.closedJoined
    && !op.socket.handshakeComplete && !op.flags.httpWritten && op.traffic.log == []
    && (op.socket.isOpened ==> op.socket.closeSeen) && op.socket.lookups == 0
    && forall k | 0 <= k < |op.traffic.exchanges| :: op.traffic.exchanges[k].requestClosed
  }

  /** Whether the attempt reached openRetainedGatewayOperation. */
  predicate Attempted(a: Attempt, deadline: real) {
    a.policy.Approved? && !a.abortedBefore && Remaining(a, deadline) > 0
  }

  function Sockets(a: Attempt, deadline: real): nat
    requires a.run != []
  {
    if Attempted(a, deadline) then Final(a).socket.connects else 0
  }

  /** What the caller is told about the attempt that was not retried. */
  function Outcome(a: Attempt, deadline: real): Result<Operation, ErrorCode>
    requires a.run != [] && (Final(a).stage.Open? || Final(a).stage.Refused?)
  {
    if a.policy.PolicyThrows? then Err(Rethrown)
    else if a.policy.NoPolicy? then Err(MeasurementUntrusted)
    else if a.abortedBefore then Err(Cancelled)
    else if Remaining(a, deadline) <= 0 then Err(MeasurementUntrusted)
    else if Final(a).stage.Open? then Ok(Final(a))
    else Err(Translate(Final(a).stage.why.code))
  }

  /** When a second attempt is made. */
  ghost predicate Retries(a: Attempt, deadline: real) {
    && Attempted(a, deadline) && a.run != [] && Final(a).stage.Refused? && !a.abortedAfter && a.caught < deadline
    && Final(a).stage.why.minted && Consumable(Final(a))
  }

  predicate Consumable(owner: Operation) {
    owner.flags.closedJoined && !owner.socket.handshakeComplete && !owner.flags.httpWritten
  }

  /** The client side: initialConnectionRefusals, keyed by the error object of attempt k. */
  class Preparation {
    var refusals: map<nat, Operation>
    var consumed: seq<nat>
    var sockets: nat

    ghost predicate Valid()
      reads this
    {
      && (forall k | k in refusals :: refusals[k].socket.minted)
      && (forall k <- consumed :: k !in refusals)
      && forall i, j | 0 <= i < j < |consumed| :: consumed[i] != consumed[j]
    }

    constructor ()
      ensures Valid() && consumed == [] && sockets == 0 && refusals == map[]
    {
      refusals, consumed, sockets := map[], [], 0;
    }

    /** consumeInitialConnectionRefusal: succeeds once, and only for a refusal that left nothing behind. */
    method Consume(error: Option<nat>) returns (ok: bool)
      requires Valid()
      modifies this`refusals, this`consumed
      ensures Valid()
      ensures ok <==> error.Some? && error.value in old(refusals) && Consumable(old(refusals)[error.value])
      ensures ok ==> refusals == old(refusals) - {error.value} && consumed == old(consumed) + [error.value]
      ensures !ok ==> refusals == old(refusals) && consumed == old(consumed)
    {
      if error.None? || error.value !in refusals { return false; }
      var owner := refusals[error.value];
      if !Consumable(owner) { return false; }
      refusals := refusals - {error.value};
      consumed := consumed + [error.value];
      return true;
    }

    /** The connection of an attempt fails, and its entry, if it made one, is in the table. */
    method Open(k: nat, a: Attempt, deadline: real) returns (last: Operation)
      requires Valid() && Settles(a, deadline) && Attempted(a, deadline) && k !in consumed
      modifies this`refusals, this`sockets
      ensures Valid() && last == Final(a) && Inv(last)
      ensures sockets == old(sockets) + Sockets(a, deadline)
      ensures refusals == if last.socket.registered then old(refusals)[k := last] else old(refusals)
    {
      RunKeeps(a.run, a.events, |a.run| - 1, |a.run| - 1);
      last := a.run[|a.run| - 1];
      sockets := sockets + last.socket.connects;
      if last.socket.registered { refusals := refusals[k := last]; }
    }

    /** openBoundOperation: world[k] is what attempt k meets. */
    method OpenBoundOperation(world: seq<Attempt>, deadline: real)
      returns (result: Result<Operation, ErrorCode>, attempts: nat)
      requires Valid() && refusals == map[] && consumed == [] && sockets == 0
      requires |world| == 2 && Settles(world[0], deadline) && Settles(world[1], deadline)
      modifies this
      ensures Valid()
      ensures attempts == if Retries(world[0], deadline) then 2 else 1
      ensures consumed == if attempts == 2 then [0] else []
      ensures sockets == Sockets(world[0], deadline) + if attempts == 2 then Sockets(world[1], deadline) else 0
      ensures attempts == 2 ==> CleanFailure(Final(world[0]))
      ensures result == Outcome(world[attempts - 1], deadline)
    {
      var attempt := 0;
      while attempt < 2
        invariant 0 <= attempt <= 1 && Valid()
        invariant attempt == 0 ==> refusals == map[] && consumed == [] && sockets == 0
        invariant attempt == 1 ==> Retries(world[0], deadline) && CleanFailure(Final(world[0]))
        invariant attempt == 1 ==> refusals == map[] && consumed == [0] && sockets == Sockets(world[0], deadline)
        decreases 2 - attempt
      {
        hide IsRun, Inv;
        var a := world[attempt];
        if a.policy.PolicyThrows? { return Err(Rethrown), attempt + 1; }
        if a.policy.NoPolicy? { return Err(MeasurementUntrusted), attempt + 1; }
        if a.abortedBefore { return Err(Cancelled), attempt + 1; }
        if Remaining(a, deadline) <= 0 { return Err(MeasurementUntrusted), attempt + 1; }
        var last := Open(attempt, a, deadline);
        if last.stage.Open? { return Ok(last), attempt + 1; }
        var why := last.stage.why;
        FinalFacts(a);
        if attempt == 0 && !a.abortedAfter && a.caught < deadline {
          var again := Consume(if why.minted then Some(attempt) else None);
          if again {
            attempt := 1;
            continue;
          }
        }
        return Err(Translate(why.code)), attempt + 1;
      }
      assert false;
    }
  }

  /** The failure an attempt ends with, seen from its run. */
  lemma FinalFacts(a: Attempt)
    requires IsRun(a.run, a.events) && Final(a).stage.Refused?
    ensures Final(a).flags.closedJoined
    ensures Final(a).stage.why.minted ==> Final(a).socket.registered
    ensures Final(a).stage.why.minted && !Final(a).socket.handshakeComplete ==> CleanFailure(Final(a))
  {
    RunKeeps(a.run, a.events, |a.run| - 1, |a.run| - 1);
  }

  /** Both attempts together open at most two sockets, and release nothing after the one shared deadline. */
  lemma TwoSocketsOneDeadline(world: seq<Attempt>, deadline: real)
    requires |world| == 2 && Settles(world[0], deadline) && Settles(world[1], deadline)
    ensures Sockets(world[0], deadline) + Sockets(world[1], deadline) <= 2
    ensures forall a, i | a in world && 0 <= i < |Final(a).traffic.log| :: Final(a).traffic.log[i].now.mono < deadline
  {
    AtMostOneSocket(world[0].run, world[0].events, |world[0].run| - 1);
    AtMostOneSocket(world[1].run, world[1].events, |world[1].run| - 1);
    forall a, i | a in world && 0 <= i < |Final(a).traffic.log| ensures Final(a).traffic.log[i].now.mono < deadline {
      ContentGoesToTheAttestedSocket(a.run, a.events, |a.run| - 1, i);
    }
  }

  /** The retried attempt sent nothing at any point of its run. */
  lemma RetriedAttemptSentNothing(a: Attempt, deadline: real, i: nat)
    requires Settles(a, deadline) && Retries(a, deadline) && i < |a.run|
    ensures a.run[i].traffic.log == [] && a.run[i].socket.observedPin.None?
  {
    FinalFacts(a);
    RunKeeps(a.run, a.events, i, |a.run| - 1);
  }

  /**
   * What the caller is told, ending by ending: the policy source's own error, an untrusted measurement
   * without a policy or time left, a cancellation, the open operation, or the failure it ended with.
   */
  lemma EachEndingIsTold(a: Attempt, deadline: real)
    requires Settles(a, deadline)
    ensures a.policy == PolicyThrows ==> Outcome(a, deadline) == Err(Rethrown)
    ensures a.policy == NoPolicy ==> Outcome(a, deadline) == Err(MeasurementUntrusted)
    ensures a.policy == Approved && a.abortedBefore ==> Outcome(a, deadline) == Err(Cancelled)
    ensures a.policy == Approved && !a.abortedBefore && deadline - a.started < 1.0 ==>
      Outcome(a, deadline) == Err(MeasurementUntrusted)
    ensures var last := a.run[|a.run| - 1];
      a.policy == Approved && !a.abortedBefore && deadline - a.started >= 1.0 ==>
        && (last.stage.Open? ==> Outcome(a, deadline) == Ok(last))
        && (last.stage.Refused? ==>
              && (last.stage.why.code == CancelledByCaller ==> Outcome(a, deadline) == Err(Cancelled))
              && (last.stage.why.code == Expired ==> Outcome(a, deadline) == Err(MeasurementUntrusted))
              && (last.stage.why.code == Configuration ==> Outcome(a, deadline) == Err(UnsupportedRequest))
              && (last.stage.why.code == Untrusted ==> Outcome(a, deadline) == Err(AttestationUntrusted))
              && (last.stage.why.code
                    in [TlsCertificate, ConnectionLost, TimedOut, Transport, Redirected, AlreadyBusy] ==>
                    Outcome(a, deadline) == Err(AttestationFailed)))
  {
    hide IsRun;
    assert (deadline - a.started).Floor <= 0 <==> deadline - a.started < 1.0;
  }

  /**
   * A second attempt is made exactly when the first ended in its own minted refusal, in time, unaborted and
   * unshaken.
   */
  lemma RetriesExactly(a: Attempt, deadline: real)
    requires Settles(a, deadline)
    ensures var last := a.run[|a.run| - 1];
      Retries(a, deadline) <==>
        (&& a.policy == Approved && !a.abortedBefore && deadline - a.started >= 1.0
         && last.stage.Refused? && last.stage.why.minted && !last.socket.handshakeComplete
         && !a.abortedAfter && a.caught < deadline)
  {
    if Final(a).stage.Refused? { FinalFacts(a); }
    if Final(a).stage.Refused? && Final(a).stage.why.minted {
      RunKeeps(a.run, a.events, |a.run| - 1, |a.run| - 1);
      MintedMeansNothingSent(a.run, a.events, |a.run| - 1, |a.run| - 1);
    }
    hide IsRun;
    assert (deadline - a.started).Floor <= 0 <==> deadline - a.started < 1.0;
  }
}
