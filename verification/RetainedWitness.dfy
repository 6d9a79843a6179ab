/** The runs the theorems speak of exist: a paid dispatch is reachable, and so is a consumable refusal. */
module RetainedWitness {
  import opened Wrappers
  import opened RetainedOperation
  import opened RetainedSafety
  import opened RetainedRuns

  const CLOCK := Now(false, 0.0, 0.0)
  const PIN := Some("k")

  lemma Extend(run: seq<Operation>, events: seq<Event>, e: Event) returns (run': seq<Operation>, events': seq<Event>)
    requires IsRun(run, events) && Enabled(run[|run| - 1], e) && ActiveInRange(run[|run| - 1])
    ensures IsRun(run', events') && run' != [] && run'[|run'| - 1] == Step(run[|run| - 1], e)
  {
    hide Enabled, Step, Initial, Moves;
    EveryEnabledHandlerExtends(run, events, e);
    run', events' := run + [Step(run[|run| - 1], e)], events + [e];
  }

  lemma Fresh(start: Operation, deadline: real, maxAge: int) returns (run: seq<Operation>, events: seq<Event>)
    requires start == Initial(deadline, Never, maxAge, false)
    ensures IsRun(run, events) && run != [] && run[|run| - 1] == start
  {
    run, events := [start], [];
  }

  /** An attested challenge exchange at one of its moments. */
  function Asked(seen: bool, responded: bool, failure: Option<Failure>, requestClosed: bool): Exchange {
    Exchange(true, false, seen, seen, responded, responded || failure.Some?, requestClosed, failure)
  }

  const START := Initial(1.0, Never, 100, false)
  const CONNECTING := Socket(true, false, None, false, false, false, false, false, 0, 1)
  const SECURE := Socket(true, true, PIN, false, true, false, false, false, 0, 1)
  const SENT := Dispatch(0, true, false, false, PIN, CLOCK, Never, Never)
  const PAID_REQUEST := Request(true, true, ContentPath, POST, true, true, true, false)
  const ACCEPTED := Verdict(true, false, PIN, Some(1))

  /** The operation while its challenge runs. */
  function During(socket: Socket, x: Exchange, flags: Flags, log: seq<Dispatch>, stage: Stage): Operation {
    Operation(flags, socket, Terms(1.0, Never, Never, 100, false),
              Traffic(!x.done, if x.done then None else Some(0), false, [x], log), stage)
  }

  function Plain(httpWritten: bool): Flags { Flags(false, false, false, None, httpWritten, false, None) }

  lemma BeginStep()
    ensures Enabled(START, BeginPreparation(Connect(CLOCK), CLOCK, CLOCK)) && ActiveInRange(START)
    ensures Step(START, BeginPreparation(Connect(CLOCK), CLOCK, CLOCK))
      == During(CONNECTING, Asked(false, false, None, false), Plain(false), [], Challenging)
  {}

  /** The socket is attested, and the challenge waits for it. */
  lemma HandshakeIsDone() returns (run: seq<Operation>, events: seq<Event>)
    ensures IsRun(run, events) && run != []
    ensures run[|run| - 1] == During(SECURE, Asked(false, false, None, false), Plain(false), [], Challenging)
  {
    BeginStep();
    hide IsRun, Begin;
    run, events := Fresh(START, 1.0, 100);
    run, events := Extend(run, events, BeginPreparation(Connect(CLOCK), CLOCK, CLOCK));
    run, events := Extend(run, events, HandshakeDone(PIN, CLOCK));
  }

  /** The challenge is on the wire of an attested socket. */
  lemma ChallengeIsSent() returns (run: seq<Operation>, events: seq<Event>)
    ensures IsRun(run, events) && run != []
    ensures run[|run| - 1] == During(SECURE, Asked(true, false, None, false), Plain(true), [SENT], Challenging)
  {
    hide IsRun;
    run, events := HandshakeIsDone();
    run, events := Extend(run, events, SocketIsAssigned(0, true, false, CLOCK));
  }

  /** Its answer has been read. */
  lemma ChallengeIsAnswered() returns (run: seq<Operation>, events: seq<Event>)
    ensures IsRun(run, events) && run != []
    ensures run[|run| - 1] == During(SECURE, Asked(true, true, None, false), Plain(true), [SENT], PreparingChain)
  {
    hide IsRun;
    run, events := ChallengeIsSent();
    run, events := Extend(run, events, ResponseArrives(0, false, false, false));
    run, events := Extend(run, events, BodyEnds(0));
    run, events := Extend(run, events, ChallengeIsRead(Answered, CLOCK));
  }

  /** Some run releases a paid request. */
  lemma PaidDispatchIsReachable() returns (run: seq<Operation>, events: seq<Event>)
    ensures IsRun(run, events) && run != []
    ensures var log := run[|run| - 1].traffic.log; log != [] && log[|log| - 1].paid
  {
    hide IsRun;
    run, events := ChallengeIsAnswered();
    run, events := Extend(run, events, ChainIsReady(None, ACCEPTED, CLOCK, CLOCK));
    run, events := Extend(run, events, Fetch(PAID_REQUEST, Reuse(true, CLOCK), CLOCK, CLOCK));
    run, events := Extend(run, events, SocketIsAssigned(1, true, false, CLOCK));
  }

  const REFUSAL := Failure(TimedOut, BeforeHttp, true)
  const TIMED_OUT := Socket(true, false, None, true, true, true, true, false, 0, 1)

  /** The connect timer has minted a refusal. */
  lemma TimerHasFired() returns (run: seq<Operation>, events: seq<Event>)
    ensures IsRun(run, events) && run != []
    ensures run[|run| - 1]
      == During(TIMED_OUT, Asked(false, false, None, false), Plain(false).(lost := true), [], Challenging)
  {
    BeginStep();
    hide IsRun, Begin;
    run, events := Fresh(START, 1.0, 100);
    run, events := Extend(run, events, BeginPreparation(Connect(CLOCK), CLOCK, CLOCK));
    run, events := Extend(run, events, ConnectTimerFires);
  }

  /** The challenge request has failed with that refusal. */
  lemma ConnectionTimesOut() returns (run: seq<Operation>, events: seq<Event>)
    ensures IsRun(run, events) && run != []
    ensures run[|run| - 1]
      == During(TIMED_OUT, Asked(false, false, Some(REFUSAL), false), Plain(false).(lost := true), [], Challenging)
  {
    hide IsRun;
    run, events := TimerHasFired();
    run, events := Extend(run, events, RequestFails(0, FromConnection(REFUSAL)));
  }

  /** Some run ends in a minted refusal with every owner joined and no handshake. */
  lemma ConsumableRefusalIsReachable() returns (run: seq<Operation>, events: seq<Event>)
    ensures IsRun(run, events) && run != []
    ensures var op := run[|run| - 1]; op.stage.Refused? && op.stage.why.minted && !op.socket.handshakeComplete
  {
    hide IsRun;
    run, events := ConnectionTimesOut();
    run, events := Extend(run, events, ChallengeIsRead(ExchangeFailed(false), CLOCK));
    assert run[|run| - 1] == During(TIMED_OUT, Asked(false, false, Some(REFUSAL), false),
                                    Plain(false).(lost := true, closed := true), [], Closing(REFUSAL));
    run, events := Extend(run, events, SocketIsClosed);
    run, events := Extend(run, events, RequestCloses(0));
    run, events := Extend(run, events, OwnersJoined);
  }
}
