/**
 * The threaded client: bound operations on any number of threads, and close() called
 * at any time by any of them. A block under the lock, and any other access to shared
 * state, is one step; steps of different threads interleave freely.
 */
module BoundClient {
  import opened Wrappers

  /** What the lock protects; operations are named by their number. */
  datatype Registry = Registry(closed: bool, connections: set<nat>, cancellations: set<nat>)

  function Register(r: Registry, i: nat, isSet: bool): (Registry, bool) {
    if r.closed || isSet then (r, false) else (r.(cancellations := r.cancellations + {i}), true)
  }

  function Admit(r: Registry, i: nat, isSet: bool): (Registry, bool) {
    if r.closed || isSet then (r, false) else (r.(connections := r.connections + {i}), true)
  }

  function Discard(r: Registry, i: nat): Registry {
    r.(cancellations := r.cancellations - {i}, connections := r.connections - {i})
  }

  /** The critical sections of the client object. */
  class Client {
    var closed: bool
    var boundConnections: set<nat>
    var boundCancellations: set<nat>

    function View(): Registry
      reads this
    {
      Registry(closed, boundConnections, boundCancellations)
    }

    constructor ()
      ensures View() == Registry(false, {}, {})
    {
      closed, boundConnections, boundCancellations := false, {}, {};
    }

    method RegisterCancellation(i: nat, isSet: bool) returns (registered: bool)
      modifies this
      ensures (View(), registered) == Register(old(View()), i, isSet)
    {
      if closed || isSet { return false; }
      boundCancellations := boundCancellations + {i};
      return true;
    }

    method AdmitConnection(i: nat, isSet: bool) returns (admitted: bool)
      modifies this
      ensures (View(), admitted) == Admit(old(View()), i, isSet)
    {
      if closed || isSet { return false; }
      boundConnections := boundConnections + {i};
      return true;
    }

    method DiscardBoth(i: nat)
      modifies this
      ensures View() == Discard(old(View()), i)
    {
      boundCancellations := boundCancellations - {i};
      boundConnections := boundConnections - {i};
    }

    method MarkClosed() returns (active: set<nat>, preparing: set<nat>)
      modifies this
      ensures View() == old(View()).(closed := true)
      ensures active == old(View()).connections && preparing == old(View()).cancellations
    {
      closed := true;
      active, preparing := boundConnections, boundCancellations;
    }
  }

  // ---- The interleaving system -----------------------------------------------------------

  /** Where an operation's thread stands. */
  datatype Pc =
    | Entering            // before the first locked block
    | FirstGuard          // top of an attempt
    | Resolving
    | SecondGuard
    | Constructing
    | Built               // operation is assigned, not yet admitted
    | Using               // the caller's block runs
    | Signalling          // finally: about to set its own cancellation
    | Closing             // finally: about to close its connection
    | Discarding          // finally: about to take the lock
    | Ended

  datatype Connection = NoConnection | Live | Shut

  datatype Op = Op(pc: Pc, attempt: nat, caller: Option<nat>, cancelled: bool, connection: Connection, admitted: bool)

  /** A thread inside close(): what it still has to signal and to close. */
  datatype Closer = NotStarted | Working(preparing: set<nat>, active: set<nat>) | Returned

  datatype System = System(registry: Registry, ops: seq<Op>, closers: seq<Closer>, events: set<nat>)

  const Initial := System(Registry(false, {}, {}), [], [], {})

  /** _BoundCancellation.is_set. */
  predicate IsSet(s: System, i: nat)
    requires i < |s.ops|
  {
    s.ops[i].cancelled || (s.ops[i].caller.Some? && s.ops[i].caller.value in s.events)
  }

  datatype Step =
    | Start(caller: Option<nat>)
    | Enter(i: nat)
    | GuardOne(i: nat)
    | Resolve(i: nat, ok: bool)
    | GuardTwo(i: nat, inTime: bool)
    | Construct(i: nat, ok: bool, mayRetry: bool)
    | Offer(i: nat)
    | Leave(i: nat)
    | SignalSelf(i: nat)
    | CloseSelf(i: nat)
    | Forget(i: nat)
    | CallClose
    | Snapshot(c: nat)
    | SignalOne(c: nat, i: nat)
    | CloseOne(c: nat, i: nat)
    | Return(c: nat)
    | CallerSets(event: nat)
    | ConnectionDies(i: nat)

  predicate At(s: System, i: nat, pc: Pc) { i < |s.ops| && s.ops[i].pc == pc }

  predicate Busy(s: System, c: nat) { c < |s.closers| && s.closers[c].Working? }

  predicate Enabled(s: System, step: Step) {
    match step
    case Start(_) => true
    case Enter(i) => At(s, i, Entering)
    case GuardOne(i) => At(s, i, FirstGuard)
    case Resolve(i, _) => At(s, i, Resolving)
    case GuardTwo(i, _) => At(s, i, SecondGuard)
    case Construct(i, _, _) => At(s, i, Constructing)
    case Offer(i) => At(s, i, Built)
    case Leave(i) => At(s, i, Using)
    case SignalSelf(i) => At(s, i, Signalling)
    case CloseSelf(i) => At(s, i, Closing)
    case Forget(i) => At(s, i, Discarding)
    case CallClose => true
    case Snapshot(c) => c < |s.closers| && s.closers[c].NotStarted?
    case SignalOne(c, i) => Busy(s, c) && i in s.closers[c].preparing && i < |s.ops|
    case CloseOne(c, i) => Busy(s, c) && s.closers[c].preparing == {} && i in s.closers[c].active && i < |s.ops|
    case Return(c) => Busy(s, c) && s.closers[c].preparing == {} && s.closers[c].active == {}
    case CallerSets(_) => true
    case ConnectionDies(i) => i < |s.ops| && s.ops[i].connection.Live?
  }

  function Shutdown(c: Connection): Connection { if c.Live? then Shut else c }

  function SetOp(s: System, i: nat, op: Op): System
    requires i < |s.ops|
  {
    s.(ops := s.ops[i := op])
  }

  function Goto(s: System, i: nat, pc: Pc): System
    requires i < |s.ops|
  {
    SetOp(s, i, s.ops[i].(pc := pc))
  }

  function Next(s: System, step: Step): System
    requires Enabled(s, step)
  {
    match step
    case Start(caller) => s.(ops := s.ops + [Op(Entering, 0, caller, false, NoConnection, false)])
    case Enter(i) =>
      var (registry, ok) := Register(s.registry, i, IsSet(s, i));
      Goto(s, i, if ok then FirstGuard else Ended).(registry := registry)
    case GuardOne(i) => Goto(s, i, if IsSet(s, i) then Signalling else Resolving)
    case Resolve(i, ok) => Goto(s, i, if ok then SecondGuard else Signalling)
    case GuardTwo(i, inTime) => Goto(s, i, if IsSet(s, i) || !inTime then Signalling else Constructing)
    case Construct(i, ok, mayRetry) =>
      if ok then SetOp(s, i, s.ops[i].(pc := Built, connection := Live))
      else if s.ops[i].attempt == 0 && !IsSet(s, i) && mayRetry
        then SetOp(s, i, s.ops[i].(pc := FirstGuard, attempt := 1))
      else Goto(s, i, Signalling)
    case Offer(i) =>
      var (registry, ok) := Admit(s.registry, i, IsSet(s, i));
      SetOp(s, i, s.ops[i].(pc := if ok then Using else Signalling, admitted := ok)).(registry := registry)
    case Leave(i) => Goto(s, i, Signalling)
    case SignalSelf(i) => SetOp(s, i, s.ops[i].(pc := Closing, cancelled := true))
    case CloseSelf(i) => SetOp(s, i, s.ops[i].(pc := Discarding, connection := Shutdown(s.ops[i].connection)))
    case Forget(i) => Goto(s, i, Ended).(registry := Discard(s.registry, i))
    case CallClose => s.(closers := s.closers + [NotStarted])
    case Snapshot(c) =>
      s.(registry := s.registry.(closed := true),
         closers := s.closers[c := Working(s.registry.cancellations, s.registry.connections)])
    case SignalOne(c, i) =>
      SetOp(s, i, s.ops[i].(cancelled := true))
        .(closers := s.closers[c := s.closers[c].(preparing := s.closers[c].preparing - {i})])
    case CloseOne(c, i) =>
      SetOp(s, i, s.ops[i].(connection := Shutdown(s.ops[i].connection)))
        .(closers := s.closers[c := s.closers[c].(active := s.closers[c].active - {i})])
    case Return(c) => s.(closers := s.closers[c := Returned])
    case CallerSets(event) => s.(events := s.events + {event})
    case ConnectionDies(i) => SetOp(s, i, s.ops[i].(connection := Shut))
  }

  // ---- The invariant ---------------------------------------------------------------------

  predicate Registered(pc: Pc) { !pc.Entering? && !pc.Ended? }

  predicate MayHoldConnection(pc: Pc) { pc.Built? || pc.Using? || pc.Signalling? || pc.Closing? }

  predicate Leaving(pc: Pc) { pc.Closing? || pc.Discarding? || pc.Ended? }

  ghost predicate OpOk(op: Op, i: nat, r: Registry) {
    && (i in r.cancellations <==> Registered(op.pc))
    && (i in r.connections <==> op.admitted && Registered(op.pc))
    && (op.connection.Live? ==> MayHoldConnection(op.pc))
    && (op.pc.Using? ==> op.admitted) && (op.admitted ==> !op.connection.NoConnection?)
    && (op.admitted ==> op.pc.Using? || op.pc.Signalling? || Leaving(op.pc))
    && (op.pc.Built? ==> !op.connection.NoConnection?)
    && (op.cancelled ==> r.closed || Leaving(op.pc))
    && op.attempt <= 1
  }

  /** What a closer has dealt with, and what is still on its lists. */
  ghost predicate CloserOk(c: Closer, ops: seq<Op>, r: Registry) {
    !c.NotStarted? ==>
      && r.closed
      && (forall i | 0 <= i < |ops| && i in r.cancellations :: ops[i].cancelled || (c.Working? && i in c.preparing))
      && (forall i | 0 <= i < |ops| && i in r.connections :: ops[i].connection.Shut? || (c.Working? && i in c.active))
      && (c.Working? ==> forall i | i in c.preparing || i in c.active :: i < |ops|)
  }

  ghost predicate Inv(s: System) {
    && (forall i | 0 <= i < |s.ops| :: OpOk(s.ops[i], i, s.registry))
    && (forall i | i in s.registry.cancellations || i in s.registry.connections :: i < |s.ops|)
    && forall c | 0 <= c < |s.closers| :: CloserOk(s.closers[c], s.ops, s.registry)
  }

  lemma StepKeeps(s: System, step: Step)
    requires Inv(s) && Enabled(s, step)
    ensures Inv(Next(s, step))
  {
    OpsKept(s, step);
    ClosersKept(s, step);
    hide Next, OpOk, CloserOk, Enabled;
  }

  /** The steps of an operation that change the registry. */
  predicate Registers(step: Step) { step.Enter? || step.Offer? || step.Forget? || step.Snapshot? }

  ghost predicate OpsOk(s: System) {
    && (forall i | 0 <= i < |s.ops| :: OpOk(s.ops[i], i, s.registry))
    && forall i | i in s.registry.cancellations || i in s.registry.connections :: i < |s.ops|
  }

  lemma OpsKept(s: System, step: Step)
    requires Inv(s) && Enabled(s, step)
    ensures OpsOk(Next(s, step))
  {
    hide Next, OpOk, OpsOk, CloserOk;
    if Registers(step) {
      RegistryStepKeepsOps(s, step);
    } else if step.SignalOne? || step.CloseOne? || step.ConnectionDies? {
      OutsideStepKeepsOps(s, step);
    } else {
      OwnStepKeepsOps(s, step);
    }
  }

  lemma RegistryStepKeepsOps(s: System, step: Step)
    requires Inv(s) && Enabled(s, step) && Registers(step)
    ensures OpsOk(Next(s, step))
  {
    hide CloserOk;
  }

  lemma OutsideStepKeepsOps(s: System, step: Step)
    requires Inv(s) && Enabled(s, step) && (step.SignalOne? || step.CloseOne? || step.ConnectionDies?)
    ensures OpsOk(Next(s, step))
  {
    if !step.ConnectionDies? { assert CloserOk(s.closers[step.c], s.ops, s.registry); }
    hide CloserOk;
  }

  lemma OwnStepKeepsOps(s: System, step: Step)
    requires Inv(s) && Enabled(s, step)
    requires !Registers(step) && !step.SignalOne? && !step.CloseOne? && !step.ConnectionDies?
    ensures OpsOk(Next(s, step))
  {
    hide CloserOk;
    if step.GuardOne? || step.Resolve? || step.GuardTwo? || step.Construct?
       || step.Leave? || step.SignalSelf? || step.CloseSelf? {
      OwnOpKept(s, step);
      OneOpChanges(s, step.i, Next(s, step).ops[step.i]);
      hide OpsOk, OpOk;
    }
  }

  lemma OneOpChanges(s: System, i: nat, op: Op)
    requires Inv(s) && i < |s.ops| && OpOk(op, i, s.registry)
    ensures OpsOk(SetOp(s, i, op))
  {
    hide CloserOk, OpOk;
  }

  lemma OwnOpKept(s: System, step: Step)
    requires Inv(s) && Enabled(s, step)
    requires step.GuardOne? || step.Resolve? || step.GuardTwo? || step.Construct?
      || step.Leave? || step.SignalSelf? || step.CloseSelf?
    ensures |Next(s, step).ops| == |s.ops|
    ensures var op := Next(s, step).ops[step.i]; Next(s, step) == SetOp(s, step.i, op) && OpOk(op, step.i, s.registry)
  {
    assert OpOk(s.ops[step.i], step.i, s.registry);
    hide CloserOk;
  }

  lemma ClosersKept(s: System, step: Step)
    requires Inv(s) && Enabled(s, step)
    ensures var t := Next(s, step); forall c | 0 <= c < |t.closers| :: CloserOk(t.closers[c], t.ops, t.registry)
  {
    if step.Snapshot? || step.SignalOne? || step.CloseOne? || step.Return? || step.CallClose? {
      CloseStepKeepsClosers(s, step);
    } else if Registers(step) || step.Start? {
      RegistryStepKeepsClosers(s, step);
    } else {
      OwnStepKeepsClosers(s, step);
    }
  }

  lemma CloseStepKeepsClosers(s: System, step: Step)
    requires Inv(s) && Enabled(s, step)
    requires step.Snapshot? || step.SignalOne? || step.CloseOne? || step.Return? || step.CallClose?
    ensures var t := Next(s, step); forall c | 0 <= c < |t.closers| :: CloserOk(t.closers[c], t.ops, t.registry)
  {}

  lemma RegistryStepKeepsClosers(s: System, step: Step)
    requires Inv(s) && Enabled(s, step) && (step.Enter? || step.Offer? || step.Forget? || step.Start?)
    ensures var t := Next(s, step); forall c | 0 <= c < |t.closers| :: CloserOk(t.closers[c], t.ops, t.registry)
  {}

  lemma OwnStepKeepsClosers(s: System, step: Step)
    requires Inv(s) && Enabled(s, step) && !Registers(step) && !step.Start?
    requires !step.SignalOne? && !step.CloseOne? && !step.Return? && !step.CallClose?
    ensures var t := Next(s, step); forall c | 0 <= c < |t.closers| :: CloserOk(t.closers[c], t.ops, t.registry)
  {}

  // ---- Runs ------------------------------------------------------------------------------

  ghost predicate Moves(run: seq<System>, steps: seq<Step>, n: nat)
    requires n < |steps| < |run|
  {
    Enabled(run[n], steps[n]) && run[n + 1] == Next(run[n], steps[n])
  }

  ghost predicate IsRun(run: seq<System>, steps: seq<Step>) {
    && |run| == |steps| + 1 && run[0] == Initial
    && forall n | 0 <= n < |steps| :: Moves(run, steps, n)
  }

  lemma {:induction false} RunKeeps(run: seq<System>, steps: seq<Step>, n: nat)
    requires IsRun(run, steps) && n < |run|
    ensures Inv(run[n])
  {
    hide Inv, Enabled, Next;
    if n == 0 {
      InitialInv();
    } else {
      RunKeeps(run, steps, n - 1);
      assert Moves(run, steps, n - 1);
      StepKeeps(run[n - 1], steps[n - 1]);
    }
  }

  lemma InitialInv()
    ensures Inv(Initial)
  {}

  /** Once closed is set the registry never grows again: nothing is registered or admitted after it. */
  lemma ClosedAdmitsNothing(s: System, step: Step)
    requires Enabled(s, step) && s.registry.closed
    ensures var r := Next(s, step).registry;
      r.closed && r.connections <= s.registry.connections && r.cancellations <= s.registry.cancellations
  {}

  lemma {:induction false} NothingIsAdmittedAfterClose(run: seq<System>, steps: seq<Step>, n: nat, m: nat)
    requires IsRun(run, steps) && n <= m < |run| && run[n].registry.closed
    ensures run[m].registry.closed
    ensures run[m].registry.connections <= run[n].registry.connections
    ensures run[m].registry.cancellations <= run[n].registry.cancellations
    decreases m
  {
    hide Enabled, Next;
    if n < m {
      NothingIsAdmittedAfterClose(run, steps, n, m - 1);
      assert Moves(run, steps, m - 1);
      ClosedAdmitsNothing(run[m - 1], steps[m - 1]);
    }
  }

  /**
   * When some close() has returned, every registered operation is cancelled and every admitted
   * connection is closed.
   */
  lemma CloseIsComplete(run: seq<System>, steps: seq<Step>, n: nat, c: nat)
    requires IsRun(run, steps) && n < |run| && c < |run[n].closers| && run[n].closers[c].Returned?
    ensures var s := run[n]; s.registry.closed
    ensures forall i | i in run[n].registry.cancellations :: i < |run[n].ops| && IsSet(run[n], i)
    ensures forall i | i in run[n].registry.connections :: i < |run[n].ops| && run[n].ops[i].connection.Shut?
    ensures forall i | 0 <= i < |run[n].ops| && run[n].ops[i].pc.Using? :: run[n].ops[i].connection.Shut?
  {
    RunKeeps(run, steps, n);
    assert CloserOk(run[n].closers[c], run[n].ops, run[n].registry);
    forall i | 0 <= i < |run[n].ops| && run[n].ops[i].pc.Using? ensures run[n].ops[i].connection.Shut? {
      assert OpOk(run[n].ops[i], i, run[n].registry);
    }
  }

  /** Work that completes after close() has returned admits nothing: each check sends its thread to the cleanup. */
  lemma LateCompletionIsRefused(run: seq<System>, steps: seq<Step>, n: nat, c: nat, i: nat, step: Step)
    requires IsRun(run, steps) && n < |run| && c < |run[n].closers| && run[n].closers[c].Returned?
    requires Enabled(run[n], step) && i < |run[n].ops|
    requires step == GuardOne(i) || step == Offer(i) || step == Enter(i) || step.GuardTwo?
    requires step.GuardTwo? ==> step.i == i
    ensures Next(run[n], step).ops[i].pc == if step.Enter? then Ended else Signalling
  {
    RunKeeps(run, steps, n);
    assert CloserOk(run[n].closers[c], run[n].ops, run[n].registry);
    assert OpOk(run[n].ops[i], i, run[n].registry);
  }

  /**
   * The client never sets a caller's event, and never cancels an operation except through close() or
   * its own cleanup.
   */
  lemma CallersEventIsTheirs(run: seq<System>, steps: seq<Step>, n: nat)
    requires IsRun(run, steps) && n < |steps|
    ensures !steps[n].CallerSets? ==> run[n + 1].events == run[n].events
    ensures forall i | 0 <= i < |run[n].ops| && run[n].ops[i].cancelled
      :: run[n].registry.closed || Leaving(run[n].ops[i].pc)
  {
    assert Moves(run, steps, n);
    RunKeeps(run, steps, n);
    forall i | 0 <= i < |run[n].ops| && run[n].ops[i].cancelled
      ensures run[n].registry.closed || Leaving(run[n].ops[i].pc) {
      assert OpOk(run[n].ops[i], i, run[n].registry);
    }
  }

  /** When every operation has ended, nothing is left behind, however it ended and whatever close() did meanwhile. */
  lemma NothingIsLeftBehind(run: seq<System>, steps: seq<Step>, n: nat)
    requires IsRun(run, steps) && n < |run| && forall i | 0 <= i < |run[n].ops| :: run[n].ops[i].pc.Ended?
    ensures run[n].registry.connections == {} && run[n].registry.cancellations == {}
    ensures forall i | 0 <= i < |run[n].ops| :: !run[n].ops[i].connection.Live?
  {
    RunKeeps(run, steps, n);
    forall i | 0 <= i < |run[n].ops|
      ensures i !in run[n].registry.connections && i !in run[n].registry.cancellations
      ensures !run[n].ops[i].connection.Live?
    {
      assert OpOk(run[n].ops[i], i, run[n].registry);
    }
  }

  /**
   * At every moment a live connection belongs to a registered operation that will still close it,
   * after at most two attempts.
   */
  lemma LiveConnectionsAreOwned(run: seq<System>, steps: seq<Step>, n: nat, i: nat)
    requires IsRun(run, steps) && n < |run| && i < |run[n].ops|
    ensures run[n].ops[i].connection.Live? ==> i in run[n].registry.cancellations && MayHoldConnection(run[n].ops[i].pc)
    ensures run[n].ops[i].attempt <= 1
  {
    RunKeeps(run, steps, n);
    assert OpOk(run[n].ops[i], i, run[n].registry);
  }

  /** No cancellation: neither the operation's own nor its caller's. */
  predicate Uncancelled(s: System, i: nat)
    requires i < |s.ops|
  {
    !s.ops[i].cancelled && (s.ops[i].caller.None? || s.ops[i].caller.value !in s.events)
  }

  /** A connection is admitted only while the client is open and nobody has cancelled its operation. */
  lemma AdmissionIsUncancelled(run: seq<System>, steps: seq<Step>, n: nat, i: nat)
    requires IsRun(run, steps) && n < |steps|
    requires i in run[n + 1].registry.connections && i !in run[n].registry.connections
    ensures steps[n] == Offer(i) && !run[n].registry.closed && i < |run[n].ops| && Uncancelled(run[n], i)
    ensures run[n].ops[i].pc.Built? && i < |run[n + 1].ops| && run[n + 1].ops[i].pc.Using?
  {
    assert Moves(run, steps, n);
  }

  /** An operation is registered only while the client is open and nobody has cancelled it. */
  lemma RegistrationIsUncancelled(run: seq<System>, steps: seq<Step>, n: nat, i: nat)
    requires IsRun(run, steps) && n < |steps|
    requires i in run[n + 1].registry.cancellations && i !in run[n].registry.cancellations
    ensures steps[n] == Enter(i) && !run[n].registry.closed && i < |run[n].ops| && Uncancelled(run[n], i)
  {
    assert Moves(run, steps, n);
  }

  /** Policy resolution, construction and a second attempt are each begun only by an operation nobody has cancelled. */
  lemma EachStageIsUncancelled(run: seq<System>, steps: seq<Step>, n: nat, i: nat)
    requires IsRun(run, steps) && n < |steps| && i < |run[n].ops|
    ensures i < |run[n + 1].ops|
    ensures run[n + 1].ops[i].pc.Resolving? && !run[n].ops[i].pc.Resolving? ==> Uncancelled(run[n], i)
    ensures run[n + 1].ops[i].pc.Constructing? && !run[n].ops[i].pc.Constructing? ==> Uncancelled(run[n], i)
    ensures run[n + 1].ops[i].attempt > run[n].ops[i].attempt ==> Uncancelled(run[n], i)
    ensures run[n + 1].ops[i].pc.Using? && !run[n].ops[i].pc.Using? ==> Uncancelled(run[n], i)
  {
    assert Moves(run, steps, n);
  }

  /**
   * What an operation gains has one cause: construction follows a guard that was in time, a connection comes
   * alive only by construction, and a second attempt follows a failed first one that may be retried.
   */
  lemma EveryGainHasItsCause(run: seq<System>, steps: seq<Step>, n: nat, i: nat)
    requires IsRun(run, steps) && n < |steps| && i < |run[n].ops|
    ensures i < |run[n + 1].ops|
    ensures var before, after := run[n].ops[i], run[n + 1].ops[i];
      && (after.pc.Constructing? && !before.pc.Constructing? ==> steps[n] == GuardTwo(i, true))
      && (after.connection.Live? && !before.connection.Live? ==> steps[n].Construct? && steps[n].i == i && steps[n].ok)
      && (after.attempt != before.attempt ==>
            steps[n] == Construct(i, false, true) && before.attempt == 0 && after.attempt == 1)
      && after.caller == before.caller
  {
    assert Moves(run, steps, n);
  }

  /** A cancellation is set, and a connection shut, by the operation's own cleanup, by a close(), or by its death. */
  lemma EveryLossHasItsCause(run: seq<System>, steps: seq<Step>, n: nat, i: nat)
    requires IsRun(run, steps) && n < |steps| && i < |run[n].ops|
    ensures i < |run[n + 1].ops|
    ensures var before, after := run[n].ops[i], run[n + 1].ops[i];
      && (before.cancelled ==> after.cancelled)
      && (after.cancelled && !before.cancelled ==>
            steps[n] == SignalSelf(i) || (steps[n].SignalOne? && steps[n].i == i))
      && (after.connection.Shut? && !before.connection.Shut? ==>
            steps[n] in [CloseSelf(i), ConnectionDies(i)] || (steps[n].CloseOne? && steps[n].i == i))
  {
    assert Moves(run, steps, n);
  }

  /**
   * Both ways: at its admission an operation gets its connection into use exactly when the client is
   * open and nobody has cancelled it; otherwise it goes to its cleanup and the registry stays as it is.
   */
  lemma OfferExactly(s: System, i: nat)
    requires Enabled(s, Offer(i))
    ensures var next := Next(s, Offer(i));
      if !s.registry.closed && Uncancelled(s, i)
      then next.ops[i].pc == Using && next.registry == s.registry.(connections := s.registry.connections + {i})
      else next.ops[i].pc == Signalling && next.registry == s.registry
  {}

  /**
   * An operation that has ended is forgotten for good: in neither set, with no live connection, in
   * every later state.
   */
  lemma {:induction false} EndedStaysForgotten(run: seq<System>, steps: seq<Step>, n: nat, m: nat, i: nat)
    requires IsRun(run, steps) && n <= m < |run| && i < |run[n].ops| && run[n].ops[i].pc.Ended?
    ensures i < |run[m].ops| && run[m].ops[i].pc.Ended? && !run[m].ops[i].connection.Live?
    ensures i !in run[m].registry.connections && i !in run[m].registry.cancellations
    decreases m
  {
    RunKeeps(run, steps, m);
    if n < m {
      EndedStaysForgotten(run, steps, n, m - 1, i);
      assert Moves(run, steps, m - 1);
    }
    assert OpOk(run[m].ops[i], i, run[m].registry);
  }

  // ---- close() ends ------------------------------------------------------------------------

  /** What a closer has left to do. */
  function Left(c: Closer): nat {
    match c
    case NotStarted => 0
    case Working(preparing, active) => |preparing| + |active| + 1
    case Returned => 0
  }

  /** A working closer always has a step of its own, each of which leaves less to do; no other step gives it more. */
  lemma CloseFinishes(run: seq<System>, steps: seq<Step>, n: nat, c: nat) returns (own: Step)
    requires IsRun(run, steps) && n < |run| && Busy(run[n], c)
    ensures Enabled(run[n], own) && (own == Return(c) || ((own.SignalOne? || own.CloseOne?) && own.c == c))
    ensures c < |Next(run[n], own).closers| && Left(Next(run[n], own).closers[c]) < Left(run[n].closers[c])
    ensures n < |steps| ==> c < |run[n + 1].closers| && Left(run[n + 1].closers[c]) <= Left(run[n].closers[c])
  {
    RunKeeps(run, steps, n);
    var s := run[n];
    assert CloserOk(s.closers[c], s.ops, s.registry);
    var closer := s.closers[c];
    if i :| i in closer.preparing {
      own := SignalOne(c, i);
      assert |closer.preparing - {i}| < |closer.preparing|;
    } else if i :| i in closer.active {
      own := CloseOne(c, i);
      assert |closer.active - {i}| < |closer.active|;
    } else {
      own := Return(c);
    }
    if n < |steps| {
      assert Moves(run, steps, n);
      OthersLeaveAlone(s, steps[n], c);
    }
  }

  lemma OthersLeaveAlone(s: System, step: Step, c: nat)
    requires Enabled(s, step) && Busy(s, c)
    ensures c < |Next(s, step).closers| && Left(Next(s, step).closers[c]) <= Left(s.closers[c])
  {
    match step
    case SignalOne(d, i) =>
      assert i in s.closers[d].preparing && |s.closers[d].preparing - {i}| < |s.closers[d].preparing|;
    case CloseOne(d, i) => assert i in s.closers[d].active && |s.closers[d].active - {i}| < |s.closers[d].active|;
    case _ =>
  }

  // ---- A run that gets there -----------------------------------------------------------------

  function Last(run: seq<System>): System
    requires run != []
  {
    run[|run| - 1]
  }

  lemma OneMore(run: seq<System>, steps: seq<Step>, step: Step) returns (longer: seq<System>, more: seq<Step>)
    requires IsRun(run, steps) && Enabled(Last(run), step)
    ensures IsRun(longer, more) && more == steps + [step] && Last(longer) == Next(Last(run), step)
  {
    hide Next, Enabled;
    longer, more := run + [Next(Last(run), step)], steps + [step];
    forall n | 0 <= n < |more| ensures Moves(longer, more, n) {
      if n < |steps| { assert Moves(run, steps, n); }
    }
  }

  /** One operation, alone with an open client, registered and with nothing cancelled. */
  predicate Alone(s: System, pc: Pc, attempt: nat, connection: Connection) {
    s == System(Registry(false, {}, {0}), [Op(pc, attempt, Some(7), false, connection, false)], [], {})
  }

  /** Guard, policy, guard: up to a construction. */
  lemma UpToConstruction(run: seq<System>, steps: seq<Step>, attempt: nat)
    returns (longer: seq<System>, more: seq<Step>)
    requires IsRun(run, steps) && Alone(Last(run), FirstGuard, attempt, NoConnection)
    ensures IsRun(longer, more) && Alone(Last(longer), Constructing, attempt, NoConnection)
    ensures more == steps + [GuardOne(0), Resolve(0, true), GuardTwo(0, true)]
  {
    longer, more := OneMore(run, steps, GuardOne(0));
    assert Alone(Last(longer), Resolving, attempt, NoConnection);
    longer, more := OneMore(longer, more, Resolve(0, true));
    assert Alone(Last(longer), SecondGuard, attempt, NoConnection);
    longer, more := OneMore(longer, more, GuardTwo(0, true));
  }

  /** A caller gets its connection even when the first attempt fails and is retried. */
  lemma UseIsReachable() returns (run: seq<System>, steps: seq<Step>)
    ensures IsRun(run, steps) && Construct(0, false, true) in steps
    ensures Last(run)
      == System(Registry(false, {0}, {0}), [Op(Using, 1, Some(7), false, Live, true)], [], {})
  {
    run, steps := [Initial], [];
    run, steps := OneMore(run, steps, Start(Some(7)));
    run, steps := OneMore(run, steps, Enter(0));
    assert Alone(Last(run), FirstGuard, 0, NoConnection);
    run, steps := UpToConstruction(run, steps, 0);
    run, steps := OneMore(run, steps, Construct(0, false, true));
    assert Alone(Last(run), FirstGuard, 1, NoConnection) && steps[5] == Construct(0, false, true);
    ghost var sofar := steps;
    run, steps := UpToConstruction(run, steps, 1);
    assert steps[5] == sofar[5];
    run, steps := OneMore(run, steps, Construct(0, true, false));
    assert Alone(Last(run), Built, 1, Live);
    run, steps := OneMore(run, steps, Offer(0));
    assert steps[5] == sofar[5];
  }
}
