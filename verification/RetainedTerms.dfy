/**
 * How long an authorization lasts: what the expiries on released content are, and when a
 * preparation opens, in terms of the events and the start of the run alone.
 */
module RetainedTerms {
  import opened Wrappers
  import opened Numbers
  import opened RetainedOperation
  import opened RetainedSafety
  import opened RetainedRuns

  predicate SetsTerms(e: Event) { e.ChainIsReady? || e.PolicyIsRefreshed? }

  /** The evidence age in force: that of the run's start, or of the refreshed policy. */
  function Age(base: Terms, e: Event): int
    requires SetsTerms(e)
  {
    if e.PolicyIsRefreshed? then e.update.maxAgeMs else base.maxAgeMs
  }

  /** An accepting event, and the terms it leaves behind. */
  ghost predicate Grants(base: Terms, e: Event, t: Terms) {
    && SetsTerms(e) && e.failed.None? && e.verdict.accepted && e.verdict.issuedAtMs.Some?
    && 0 < e.verdict.issuedAtMs.value + Age(base, e) <= MAX_SAFE_INTEGER
    && t.evidenceExpiry == At((e.verdict.issuedAtMs.value + Age(base, e)) as real)
    && t.approvalExpiry == (if e.PolicyIsRefreshed? then e.update.approvalExpiry else base.approvalExpiry)
  }

  predicate Ended(stage: Stage) { stage.Closing? || stage.Refused? }

  /** The terms are the initial ones until some event grants others; released content carries the granted ones. */
  ghost predicate TermsOk(op: Operation, base: Terms, events: seq<Event>) {
    && (op.flags.authorized ==>
          (op.stage.Open? || Ended(op.stage)) && exists e | e in events :: Grants(base, e, op.terms))
    && (!op.flags.authorized && !Ended(op.stage) ==> op.terms == base)
    && ContentCarries(op)
  }

  ghost predicate ContentCarries(op: Operation) {
    forall i | 0 <= i < |op.traffic.log| && !op.traffic.log[i].challenge ::
      && op.traffic.log[i].evidenceExpiry == op.terms.evidenceExpiry
      && op.traffic.log[i].approvalExpiry == op.terms.approvalExpiry
  }

  // ---- Handlers that leave the terms alone ---------------------------------------------------

  lemma TerminateKeepsTerms(op: Operation, k: nat, why: Failure)
    requires k < |op.traffic.exchanges|
    ensures Terminate(op, k, why).terms == op.terms && Terminate(op, k, why).stage == op.stage
  {}

  lemma CloseKeepsTerms(op: Operation)
    requires ActiveInRange(op)
    ensures Close(op).terms == op.terms && Close(op).stage == op.stage
  {}

  lemma AddRequestKeepsTerms(op: Operation, action: AgentAction)
    ensures AddRequest(op, action).terms == op.terms && AddRequest(op, action).stage == op.stage
  {
    hide GuardOf;
  }

  lemma StartKeepsTerms(op: Operation, r: Request, challenge: bool, action: AgentAction, now: Now, later: Now)
    ensures var next := StartExchange(op, r, challenge, action, now, later).0;
      next.terms == op.terms && next.stage == op.stage
  {
    hide RequestFailure, GuardOf, AddRequest, Terminate;
    var admitted := op.(traffic := Admit(op.traffic, challenge, Paid(r, challenge)));
    AddRequestKeepsTraffic(admitted, action);
    AddRequestKeepsTerms(admitted, action);
    var added := AddRequest(admitted, action);
    if Guard(added, later).Some? { TerminateKeepsTerms(added, |op.traffic.exchanges|, Guard(added, later).value); }
  }

  lemma ExchangeKeepsTerms(op: Operation, e: Event)
    requires ActiveInRange(op) && Enabled(op, e) && OnExchange(e)
    ensures Step(op, e).terms == op.terms && Step(op, e).stage == op.stage
  {
    hide GuardOf, Terminate;
    forall o: Operation, why: Failure | e.k < |o.traffic.exchanges|
      ensures Terminate(o, e.k, why).terms == o.terms && Terminate(o, e.k, why).stage == o.stage
    {
      TerminateKeepsTerms(o, e.k, why);
    }
  }

  lemma SocketKeepsTerms(op: Operation, e: Event)
    requires ActiveInRange(op) && Enabled(op, e) && OnSocket(e)
    ensures Step(op, e).terms == op.terms && Step(op, e).stage == op.stage
  {
    hide GuardOf, AddRequest;
    if e.AgentActs? { AddRequestKeepsTerms(op, e.action); }
  }

  /** The stages one event other than the granting ones can lead to. */
  predicate StageFollows(a: Stage, b: Stage) {
    || a == b || (a.Start? && (b.Challenging? || b.Closing?)) || (a.Challenging? && (b.PreparingChain? || b.Closing?))
    || (a.Closing? && b.Refused?)
  }

  lemma OtherEventsKeepTerms(op: Operation, e: Event)
    requires ActiveInRange(op) && Enabled(op, e) && !SetsTerms(e)
    ensures Step(op, e).terms == op.terms && StageFollows(op.stage, Step(op, e).stage)
  {
    if OnExchange(e) {
      hide *;
      ExchangeKeepsTerms(op, e);
      SameStageFollows(op.stage);
    } else if OnSocket(e) {
      hide *;
      SocketKeepsTerms(op, e);
      SameStageFollows(op.stage);
    } else {
      hide GuardOf, Close, StartExchange;
      forall o: Operation | ActiveInRange(o) ensures Close(o).terms == o.terms && Close(o).stage == o.stage {
        CloseKeepsTerms(o);
      }
      match e {
        case BeginPreparation(action, now, later) => StartKeepsTerms(op, ChallengeRequest, true, action, now, later);
        case Fetch(r, action, now, later) => StartKeepsTerms(op, r, false, action, now, later);
        case _ =>
      }
    }
  }

  lemma SameStageFollows(stage: Stage)
    ensures StageFollows(stage, stage)
  {}

  // ---- The granting events ----------------------------------------------------------------------

  lemma GiveUpKeepsTerms(op: Operation, why: Failure)
    requires ActiveInRange(op)
    ensures GiveUp(op, why).terms == op.terms && GiveUp(op, why).stage.Closing?
    ensures GiveUp(op, why).flags.authorized == op.flags.authorized
  {
    hide Close;
    CloseKeepsTerms(op);
    CloseKeepsPin(op);
  }

  lemma DecideTerms(op: Operation, v: Verdict, now: Now)
    requires ActiveInRange(op) && !op.flags.authorized
    ensures var next := Decide(op, v, now);
      && (next.stage.Open? || next.stage.Closing?) && (next.stage.Open? ==> next.flags.authorized)
      && (next.flags.authorized ==>
            && v.accepted && v.issuedAtMs.Some? && 0 < v.issuedAtMs.value + op.terms.maxAgeMs <= MAX_SAFE_INTEGER
            && next.terms == op.terms.(evidenceExpiry := At((v.issuedAtMs.value + op.terms.maxAgeMs) as real)))
  {
    hide GuardOf, GiveUp;
    forall o: Operation, why: Failure | ActiveInRange(o)
      ensures GiveUp(o, why).terms == o.terms && GiveUp(o, why).stage.Closing?
        && GiveUp(o, why).flags.authorized == o.flags.authorized
    {
      GiveUpKeepsTerms(o, why);
    }
  }

  lemma GrantTerms(op: Operation, base: Terms, e: Event)
    requires ActiveInRange(op) && Enabled(op, e) && SetsTerms(e) && !op.flags.authorized && op.terms == base
    ensures var next := Step(op, e);
      && (next.flags.authorized ==> (next.stage.Open? || Ended(next.stage)) && Grants(base, e, next.terms))
      && (!next.flags.authorized && !Ended(next.stage) ==> next.terms == base)
  {
    hide GuardOf, GiveUp, Decide;
    forall o: Operation, why: Failure | ActiveInRange(o)
      ensures GiveUp(o, why).terms == o.terms && GiveUp(o, why).stage.Closing?
        && GiveUp(o, why).flags.authorized == o.flags.authorized
    {
      GiveUpKeepsTerms(o, why);
    }
    match e
    case ChainIsReady(failed, v, now, later) => DecideTerms(op, v, later);
    case PolicyIsRefreshed(failed, u, v, now, later) =>
      DecideTerms(op.(terms := op.terms.(maxAgeMs := u.maxAgeMs, approvalExpiry := u.approvalExpiry)), v, later);
  }

  // ---- Runs -------------------------------------------------------------------------------------

  lemma AuthorizedStays(op: Operation, e: Event)
    requires Inv(op) && ActiveInRange(op) && Enabled(op, e) && !SetsTerms(e)
    ensures Step(op, e).flags.authorized == op.flags.authorized
  {
    hide Inv, Step, Enabled;
    StepKeeps(op, e);
    if op.flags.authorized { GrowsAuthorized(op, Step(op, e)); } else { AuthorizationIsEarned(op, e); }
  }

  lemma GrowsAuthorized(a: Operation, b: Operation)
    requires Grows(a, b) && a.flags.authorized
    ensures b.flags.authorized
  {}

  /** Before authorization no content has been released. */
  lemma NoContentYet(op: Operation)
    requires Inv(op) && !op.flags.authorized
    ensures forall i | 0 <= i < |op.traffic.log| :: op.traffic.log[i].challenge
  {
    forall i | 0 <= i < |op.traffic.log| ensures op.traffic.log[i].challenge {
      assert DispatchOk(op.traffic.log[i], op.traffic.exchanges, op.terms.deadline, op.flags.attestedPin);
    }
  }

  lemma ContentKeeps(op: Operation, e: Event)
    requires Inv(op) && ActiveInRange(op) && Enabled(op, e) && ContentCarries(op)
    requires Step(op, e).terms == op.terms
    ensures ContentCarries(Step(op, e))
  {
    hide Inv, Step, Enabled, GuardOf;
    DispatchNeedsGuard(op, e);
  }

  lemma TermsStep(op: Operation, base: Terms, events: seq<Event>, e: Event)
    requires Inv(op) && ActiveInRange(op) && Enabled(op, e) && TermsOk(op, base, events)
    ensures TermsOk(Step(op, e), base, events + [e])
  {
    if SetsTerms(e) {
      hide Inv, Step, Grants, ContentCarries;
      assert !op.flags.authorized && op.terms == base;
      GrantTerms(op, base, e);
      NoContentYet(op);
      OtherEventsKeepLog(op, e);
      OnlyChallenges(Step(op, e));
      assert e in events + [e];
    } else {
      hide Inv, Step, Enabled, Grants;
      OtherEventsKeepTerms(op, e);
      AuthorizedStays(op, e);
      ContentKeeps(op, e);
      assert forall g | g in events :: g in events + [e];
    }
  }

  lemma OnlyChallenges(op: Operation)
    requires forall i | 0 <= i < |op.traffic.log| :: op.traffic.log[i].challenge
    ensures ContentCarries(op)
  {}

  lemma {:induction false} RunTerms(run: seq<Operation>, events: seq<Event>, n: nat)
    requires IsRun(run, events) && n < |run|
    ensures TermsOk(run[n], run[0].terms, events[..n])
  {
    if n > 0 {
      RunTerms(run, events, n - 1);
      MoveAt(run, events, n - 1);
      assert events[..n] == events[..n - 1] + [events[n - 1]];
      hide *;
      TermsStep(run[n - 1], run[0].terms, events[..n - 1], events[n - 1]);
    }
  }

  /**
   * Content released by then was granted by an earlier event of the run: a chain or a refresh
   * whose accepted verdict names when the evidence was issued. The release lies before issue
   * time plus the age in force, and before the approval in force.
   */
  lemma ContentLastsAsLongAsItsEvidence(run: seq<Operation>, events: seq<Event>, n: nat, i: nat) returns (g: nat)
    requires IsRun(run, events) && n < |run| && i < |run[n].traffic.log| && !run[n].traffic.log[i].challenge
    ensures g < n <= |events| && (events[g].ChainIsReady? || events[g].PolicyIsRefreshed?)
    ensures events[g].verdict.accepted && events[g].verdict.issuedAtMs.Some?
    ensures var d := run[n].traffic.log[i];
      var age := if events[g].PolicyIsRefreshed? then events[g].update.maxAgeMs else run[0].terms.maxAgeMs;
      var approval := if events[g].PolicyIsRefreshed? then events[g].update.approvalExpiry
                      else run[0].terms.approvalExpiry;
      && d.evidenceExpiry == At((events[g].verdict.issuedAtMs.value + age) as real)
      && d.now.wall < (events[g].verdict.issuedAtMs.value + age) as real
      && d.approvalExpiry == approval && (approval.At? ==> d.now.wall < approval.ms)
  {
    RunTerms(run, events, n);
    ContentGoesToTheAttestedSocket(run, events, n, i);
    RunKeeps(run, events, n, n);
    ContentIsAuthorized(run[n], i);
    hide Inv, Step, Enabled;
    var e :| e in events[..n] && Grants(run[0].terms, e, run[n].terms);
    g :| 0 <= g < n && events[g] == e;
  }

  lemma ContentIsAuthorized(op: Operation, i: nat)
    requires Inv(op) && i < |op.traffic.log| && !op.traffic.log[i].challenge
    ensures op.flags.authorized
  {
    if !op.flags.authorized { NoContentYet(op); }
  }

  // ---- When a preparation opens -------------------------------------------------------------------

  /** Nothing stands against a dispatch: the operation lives, and no bound is reached. */
  predicate Alive(op: Operation, now: Now, evidence: Expiry, approval: Expiry) {
    && !op.flags.closed && !now.aborted && op.flags.refusal.None? && !op.flags.lost && !op.socket.gone
    && now.mono < op.terms.deadline
    && (evidence.At? ==> now.wall < evidence.ms) && (approval.At? ==> now.wall < approval.ms)
  }

  /** The guard passes exactly then; it names cancellation first, then a refusal, a lost connection and expiry. */
  lemma GuardExactly(op: Operation, now: Now)
    ensures Guard(op, now).None? <==> Alive(op, now, op.terms.evidenceExpiry, op.terms.approvalExpiry)
    ensures op.flags.closed || now.aborted ==> Guard(op, now) == Some(Failure(CancelledByCaller, BeforeHttp, false))
    ensures !op.flags.closed && !now.aborted && op.flags.refusal.Some? ==> Guard(op, now) == op.flags.refusal
    ensures !op.flags.closed && !now.aborted && op.flags.refusal.None? && (op.flags.lost || op.socket.gone) ==>
      Guard(op, now) == Some(Failure(ConnectionLost, BeforeHttp, false))
    ensures Alive(op, now, Never, Never) && Guard(op, now).Some? ==>
      Guard(op, now) == Some(Failure(Expired, BeforeHttp, false))
  {}

  /** The acceptance condition: an accepted verdict on this socket's key, issued at a time that leaves it some life. */
  predicate Accepts(op: Operation, v: Verdict, age: int, approval: Expiry, now: Now) {
    && v.accepted && v.bindingPin.Some? && v.bindingPin == op.socket.observedPin && v.issuedAtMs.Some?
    && 0 < v.issuedAtMs.value + age <= MAX_SAFE_INTEGER
    && Alive(op, now, At((v.issuedAtMs.value + age) as real), approval)
  }

  lemma GiveUpCloses(op: Operation, why: Failure)
    requires ActiveInRange(op)
    ensures GiveUp(op, why).stage == Closing(why) && GiveUp(op, why).flags.closed
  {}

  lemma DecideOpensExactly(op: Operation, v: Verdict, now: Now)
    requires ActiveInRange(op)
    ensures var next := Decide(op, v, now);
      && (next.stage.Open? <==> Accepts(op, v, op.terms.maxAgeMs, op.terms.approvalExpiry, now))
      && (!next.stage.Open? ==> next.stage.Closing? && next.flags.closed)
      && (!v.accepted || v.bindingPin.None? || v.bindingPin != op.socket.observedPin || v.issuedAtMs.None? ==>
            next.stage == Closing(Failure(Untrusted, BeforeHttp, false)))
  {
    forall o: Operation, why: Failure | ActiveInRange(o)
      ensures GiveUp(o, why).stage == Closing(why) && GiveUp(o, why).flags.closed
    {
      GiveUpCloses(o, why);
    }
    hide GiveUp;
  }

  /**
   * A prepared chain opens the operation exactly when it did not fail, the guard held, and the verdict is
   * acceptable.
   */
  lemma ChainOpensExactly(op: Operation, failed: Option<Code>, v: Verdict, now: Now, later: Now)
    requires ActiveInRange(op) && op.stage.PreparingChain?
    ensures var next := Step(op, ChainIsReady(failed, v, now, later));
      && (next.stage.Open? <==>
            && failed.None? && Alive(op, now, op.terms.evidenceExpiry, op.terms.approvalExpiry)
            && Accepts(op, v, op.terms.maxAgeMs, op.terms.approvalExpiry, later))
      && (next.stage.Refreshing? <==>
            && failed.None? && Alive(op, now, op.terms.evidenceExpiry, op.terms.approvalExpiry)
            && v.moved && !v.accepted && op.terms.canRefresh)
      && (!next.stage.Open? && !next.stage.Refreshing? ==> next.stage.Closing? && next.flags.closed)
      && (failed.Some? ==> next.stage == Closing(Failure(failed.value, BeforeHttp, false)))
  {
    hide GuardOf, Accepts, Alive, Decide, GiveUp;
    GuardExactly(op, now);
    DecideOpensExactly(op, v, later);
    AcceptsAccepted(op, v, op.terms.maxAgeMs, op.terms.approvalExpiry, later);
    if failed.Some? { GiveUpCloses(op, Fail(failed.value)); }
    if Guard(op, now).Some? { GiveUpCloses(op, Guard(op, now).value); }
  }

  lemma AcceptsAccepted(op: Operation, v: Verdict, age: int, approval: Expiry, now: Now)
    ensures Accepts(op, v, age, approval, now) ==> v.accepted
  {}

  /**
   * A refresh opens it exactly when it is well formed, keeps a bound on the approval, and the verdict is
   * acceptable under it.
   */
  lemma RefreshOpensExactly(op: Operation, failed: Option<Code>, u: Update, v: Verdict, now: Now, later: Now)
    requires ActiveInRange(op) && op.stage.Refreshing?
    ensures var next := Step(op, PolicyIsRefreshed(failed, u, v, now, later));
      var bounded := op.terms.approvalExpiry.At? ==> u.approvalExpiry.At?;
      && (next.stage.Open? <==>
            && failed.None? && u.exact && u.sound && 1 <= u.maxAgeMs <= MAX_SAFE_INTEGER && bounded
            && Alive(op, now, op.terms.evidenceExpiry, u.approvalExpiry)
            && Accepts(op, v, u.maxAgeMs, u.approvalExpiry, later))
      && (!next.stage.Open? ==> next.stage.Closing? && next.flags.closed)
      && (failed.Some? ==> next.stage == Closing(Failure(failed.value, BeforeHttp, false)))
      && (failed.None? && (!u.exact || !bounded) ==> next.stage == Closing(Failure(Configuration, BeforeHttp, false)))
      && (failed.None? && u.exact && bounded && !u.sound ==>
            next.stage == Closing(Failure(Untrusted, BeforeHttp, false)))
  {
    hide GuardOf, Accepts, Alive, Decide, GiveUp;
    var updated := op.(terms := op.terms.(maxAgeMs := u.maxAgeMs, approvalExpiry := u.approvalExpiry));
    GuardExactly(updated, now);
    DecideOpensExactly(updated, v, later);
    SameLife(op, updated, v, u, now, later);
    if failed.Some? { GiveUpCloses(op, Fail(failed.value)); }
    if UpdateFailure(op, u).Some? { GiveUpCloses(op, UpdateFailure(op, u).value); }
    if Guard(updated, now).Some? { GiveUpCloses(updated, Guard(updated, now).value); }
  }

  lemma SameLife(op: Operation, updated: Operation, v: Verdict, u: Update, now: Now, later: Now)
    requires updated == op.(terms := op.terms.(maxAgeMs := u.maxAgeMs, approvalExpiry := u.approvalExpiry))
    ensures Alive(updated, now, op.terms.evidenceExpiry, u.approvalExpiry)
      <==> Alive(op, now, op.terms.evidenceExpiry, u.approvalExpiry)
    ensures Accepts(updated, v, u.maxAgeMs, u.approvalExpiry, later)
      <==> Accepts(op, v, u.maxAgeMs, u.approvalExpiry, later)
  {}
}
