/**
 * The promise-chain mutex of resolve: every call replaces the tail by its own promise
 * and waits for the tail it found. Any number of calls may arrive, at any time.
 */
module PromiseLock {
  import opened Wrappers

  datatype Status = Waiting | Inside | Done

  /** prior: the promise this call awaits; seen: the shared variables as it found them on entry. */
  datatype Caller<S> = Caller(prior: nat, status: Status, seen: Option<S>)

  /** Promise 0 is the initial resolved one; call k makes promise k + 1. */
  datatype System<S> = System(calls: seq<Caller<S>>, tail: nat, resolved: set<nat>, shared: S, entered: seq<nat>)

  /** A call leaves with whatever its body does to the shared variables; a body that throws leaves too. */
  datatype Step<!S> = Arrive | Enter(k: nat) | Leave(k: nat, body: S -> S)

  function Initial<S>(shared: S): System<S> { System([], 0, {0}, shared, []) }

  predicate Enabled<S>(s: System<S>, step: Step<S>) {
    match step
    case Arrive => true
    case Enter(k) => k < |s.calls| && s.calls[k].status.Waiting? && s.calls[k].prior in s.resolved
    case Leave(k, _) => k < |s.calls| && s.calls[k].status.Inside? && s.calls[k].seen.Some?
  }

  function Next<S>(s: System<S>, step: Step<S>): System<S>
    requires Enabled(s, step)
  {
    match step
    case Arrive => s.(calls := s.calls + [Caller(s.tail, Waiting, None)], tail := |s.calls| + 1)
    case Enter(k) =>
      s.(calls := s.calls[k := s.calls[k].(status := Inside, seen := Some(s.shared))],
         entered := s.entered + [k])
    case Leave(k, body) =>
      s.(calls := s.calls[k := s.calls[k].(status := Done)], resolved := s.resolved + {k + 1},
         shared := body(s.calls[k].seen.value))
  }

  /** d calls are done, they are the first d, and only call d may be inside. */
  ghost predicate Inv<S(!new)>(s: System<S>, d: nat) {
    && d <= |s.calls| && s.tail == |s.calls|
    && (forall p: nat :: p in s.resolved <==> p <= d)
    && (forall k | 0 <= k < |s.calls| :: s.calls[k].prior == k)
    && (forall k | 0 <= k < |s.calls| :: s.calls[k].status.Done? <==> k < d)
    && (forall k | d < k < |s.calls| :: s.calls[k].status.Waiting?)
    && (d < |s.calls| && s.calls[d].status.Inside? ==> s.calls[d].seen == Some(s.shared))
    && |s.entered| == d + (if d < |s.calls| && s.calls[d].status.Inside? then 1 else 0)
    && forall i | 0 <= i < |s.entered| :: s.entered[i] == i
  }

  /** Every step keeps the shape; a body always starts from the variables its predecessor left. */
  lemma StepKeeps<S(!new)>(s: System<S>, d: nat, step: Step<S>) returns (d': nat)
    requires Inv(s, d) && Enabled(s, step)
    ensures Inv(Next(s, step), d') && d <= d' <= d + 1
    ensures d' == d + 1 <==> step.Leave?
    ensures step.Leave? ==> step.k == d && Next(s, step).shared == step.body(s.shared)
    ensures !step.Leave? ==> Next(s, step).shared == s.shared
    ensures step.Enter? ==> step.k == d
  {
    d' := if step.Leave? then d + 1 else d;
  }

  // ---- Runs -----------------------------------------------------------------------------

  ghost predicate Moves<S(!new)>(run: seq<System<S>>, steps: seq<Step<S>>, i: nat)
    requires i < |steps| < |run|
  {
    Enabled(run[i], steps[i]) && run[i + 1] == Next(run[i], steps[i])
  }

  ghost predicate IsRun<S(!new)>(run: seq<System<S>>, steps: seq<Step<S>>, shared: S) {
    && |run| == |steps| + 1 && run[0] == Initial(shared)
    && forall i | 0 <= i < |steps| :: Moves(run, steps, i)
  }

  /** The bodies, in the order in which the calls left. */
  function Bodies<S>(steps: seq<Step<S>>): seq<S -> S> {
    if steps == [] then []
    else Bodies(steps[..|steps| - 1]) + (if steps[|steps| - 1].Leave? then [steps[|steps| - 1].body] else [])
  }

  function Apply<S>(bodies: seq<S -> S>, shared: S): S {
    if bodies == [] then shared else bodies[|bodies| - 1](Apply(bodies[..|bodies| - 1], shared))
  }

  lemma PrefixIsRun<S(!new)>(run: seq<System<S>>, steps: seq<Step<S>>, shared: S, n: nat)
    requires IsRun(run, steps, shared) && n <= |steps|
    ensures IsRun(run[..n + 1], steps[..n], shared)
  {
    var start, early := run[..n + 1], steps[..n];
    forall i | 0 <= i < n ensures Moves(start, early, i) { assert Moves(run, steps, i); }
  }

  /** Any interleaving has the effect of running the bodies one after the other, call 0 first. */
  lemma {:induction false} RunIsSequential<S(!new)>(run: seq<System<S>>, steps: seq<Step<S>>, shared: S)
    returns (d: nat)
    requires IsRun(run, steps, shared)
    ensures Inv(run[|steps|], d) && d == |Bodies(steps)|
    ensures run[|steps|].shared == Apply(Bodies(steps), shared)
    decreases |steps|
  {
    if steps == [] { return 0; }
    var n := |steps| - 1;
    PrefixIsRun(run, steps, shared, n);
    var before := RunIsSequential(run[..n + 1], steps[..n], shared);
    assert Moves(run, steps, n);
    d := StepKeeps(run[n], before, steps[n]);
    var all := Bodies(steps);
    assert all[..before] == Bodies(steps[..n]);
    assert run[..n + 1][n] == run[n];
    assert run[n].shared == Apply(Bodies(steps[..n]), shared);
    if steps[n].Leave? {
      assert all[before] == steps[n].body;
      assert Apply(all, shared) == steps[n].body(Apply(all[..before], shared));
    } else {
      assert all == all[..before];
    }
  }

  /** Mutual exclusion and first-in first-out entry, in every reachable state. */
  lemma OneInsideInOrder<S(!new)>(run: seq<System<S>>, steps: seq<Step<S>>, shared: S)
    requires IsRun(run, steps, shared)
    ensures var s := run[|steps|];
      && (forall i, j | 0 <= i < |s.calls| && 0 <= j < |s.calls|
              && s.calls[i].status.Inside? && s.calls[j].status.Inside?
              :: i == j)
      && (forall i | 0 <= i < |s.entered| :: s.entered[i] == i)
      && (forall i, j | 0 <= i < j < |s.calls| && !s.calls[j].status.Waiting? :: s.calls[i].status.Done?)
  {
    var d := RunIsSequential(run, steps, shared);
  }

  /** While a call waits, the lock itself can move: some call can enter, or one is inside and may leave. */
  lemma NeverStuck<S(!new)>(run: seq<System<S>>, steps: seq<Step<S>>, shared: S, k: nat)
    requires IsRun(run, steps, shared) && k < |run[|steps|].calls| && run[|steps|].calls[k].status.Waiting?
    ensures var s := run[|steps|];
      exists i | 0 <= i <= k :: Enabled(s, Enter(i)) || s.calls[i].status.Inside?
  {
    var d := RunIsSequential(run, steps, shared);
    var s := run[|steps|];
    assert d <= k;
    assert Enabled(s, Enter(d)) || s.calls[d].status.Inside?;
  }

  function LockSteps<S>(steps: seq<Step<S>>): nat {
    if steps == [] then 0
    else LockSteps(steps[..|steps| - 1]) + (if steps[|steps| - 1].Arrive? then 0 else 1)
  }

  lemma {:induction false} LockStepsCount<S(!new)>(run: seq<System<S>>, steps: seq<Step<S>>, shared: S) returns (d: nat)
    requires IsRun(run, steps, shared)
    ensures Inv(run[|steps|], d)
    ensures LockSteps(steps) == 2 * d
      + (if d < |run[|steps|].calls| && run[|steps|].calls[d].status.Inside? then 1 else 0)
    decreases |steps|
  {
    if steps == [] { return 0; }
    var n := |steps| - 1;
    PrefixIsRun(run, steps, shared, n);
    var before := LockStepsCount(run[..n + 1], steps[..n], shared);
    assert Moves(run, steps, n);
    d := StepKeeps(run[n], before, steps[n]);
  }

  /**
   * Call k has entered after 2k + 1 entries and exits, however the arrivals fall: with NeverStuck,
   * it enters if every body ends.
   */
  lemma EntersInTime<S(!new)>(run: seq<System<S>>, steps: seq<Step<S>>, shared: S, k: nat)
    requires IsRun(run, steps, shared) && k < |run[|steps|].calls|
    ensures LockSteps(steps) >= 2 * k + 1 <==> !run[|steps|].calls[k].status.Waiting?
  {
    var d := LockStepsCount(run, steps, shared);
  }
}
