/** The signed-policy source over whole histories of calls, with an adversarial feed, clock and store. */
module PolicySource {
  import opened Wrappers
  import opened Numbers
  import opened CanonicalJson
  import opened JsonRecord
  import opened PolicyAuthority
  import PromiseLock

  datatype Cached = Cached(envelope: Json, refreshedAt: int)

  datatype Memory = Memory(checkpoint: Option<Checkpoint>, cached: Option<Cached>)

  datatype Body = NoBody | TooLarge | ReadFails | NotJson | Publication(envelope: Json)

  datatype Answer =
    | FetchThrows(aborted: bool)
    | Refused(status: nat)
    | Answered(body: Body)        // response.ok

  /** One resolve call with everything the world decides: readings of now() in the order they are taken. */
  datatype Call = Call(
    origin: string, forceRefresh: bool, aborted: bool, time: int, answer: Answer, refreshed: int,
    stale: int, checked: int, stored: bool, returned: int)

  /** The envelope to judge and when it was fetched; None where the call has thrown. */
  function Candidate(root: Root, m: Memory, c: Call): Option<Cached> {
    if !c.forceRefresh && m.cached.Some? && c.time - m.cached.value.refreshedAt < root.refreshMs then m.cached
    else match c.answer
      case FetchThrows(aborted) => if aborted then None else m.cached
      case Refused(status) => if status < 500 then None else m.cached
      case Answered(Publication(envelope)) => Some(Cached(envelope, c.refreshed))
      case Answered(_) => None
  }

  /** resolve, from lock to unlock: the memory afterwards and the approval, None where it throws. */
  ghost function ResolveStep(p: Primitives, root: Root, m: Memory, c: Call): (Memory, Option<Verified>) {
    var candidate := Candidate(root, m, c);
    if c.aborted || candidate.None? || c.stale - candidate.value.refreshedAt > root.maxStaleMs then (m, None)
    else
      var envelope := candidate.value.envelope;
      var verified := Verify(p, envelope, root, c.origin, c.checked, m.checkpoint);
      if verified.None? || !c.stored then (m, None)
      else
        var seen := Some(Checkpoint(verified.value.sequence, verified.value.payloadSha256));
        (Memory(seen, candidate), Verify(p, envelope, root, c.origin, c.returned, seen))
  }

  /** The source object: what its closure keeps between calls. */
  class Source {
    const root: Root
    var checkpoint: Option<Checkpoint>
    var cached: Option<Cached>

    function View(): Memory
      reads this
    {
      Memory(checkpoint, cached)
    }

    constructor (root: Root, checkpoint: Option<Checkpoint>)
      ensures this.root == root && View() == Memory(checkpoint, None)
    {
      this.root, this.checkpoint, cached := root, checkpoint, None;
    }

    method Resolve(p: Primitives, c: Call) returns (approval: Option<Verified>)
      modifies this`checkpoint, this`cached
      ensures (View(), approval) == ResolveStep(p, root, old(View()), c)
    {
      hide Verify;
      if c.aborted { return None; }
      var envelope := if cached.Some? then Some(cached.value.envelope) else None;
      var refreshedAt := if cached.Some? then cached.value.refreshedAt else 0;
      if c.forceRefresh || cached.None? || c.time - cached.value.refreshedAt >= root.refreshMs {
        match c.answer {
          case FetchThrows(aborted) =>
            if aborted || cached.None? { return None; }
          case Refused(status) =>
            if cached.None? || status < 500 { return None; }
          case Answered(body) =>
            if !body.Publication? { return None; }
            envelope, refreshedAt := Some(body.envelope), c.refreshed;
        }
      }
      if c.stale - refreshedAt > root.maxStaleMs { return None; }
      var verified := VerifySignedGatewayPolicy(p, envelope.value, root, c.origin, c.checked, checkpoint);
      if verified.None? || !c.stored { return None; }
      checkpoint := Some(Checkpoint(verified.value.sequence, verified.value.payloadSha256));
      cached := Some(Cached(envelope.value, refreshedAt));
      approval := VerifySignedGatewayPolicy(p, envelope.value, root, c.origin, c.returned, checkpoint);
    }
  }

  function Noted(v: Verified): Option<Checkpoint> { Some(Checkpoint(v.sequence, v.payloadSha256)) }

  // ---- What one call keeps ----------------------------------------------------------------

  /** This envelope was accepted once, and gave this checkpoint. */
  ghost predicate Gave(p: Primitives, root: Root, envelope: Json, checkpoint: Checkpoint) {
    exists origin, now, previous :: GaveAt(p, root, envelope, checkpoint, origin, now, previous)
  }

  ghost predicate GaveAt(p: Primitives, root: Root, envelope: Json, checkpoint: Checkpoint,
                         origin: string, now: int, previous: Option<Checkpoint>) {
    var v := Verify(p, envelope, root, origin, now, previous);
    v.Some? && checkpoint == Checkpoint(v.value.sequence, v.value.payloadSha256)
  }

  /** A cache never exists without the checkpoint it stands for. */
  ghost predicate CacheMatches(p: Primitives, root: Root, m: Memory) {
    m.cached.Some? ==> m.checkpoint.Some? && Gave(p, root, m.cached.value.envelope, m.checkpoint.value)
  }

  /** The checkpoint only moves forward, and never changes its digest at one sequence number. */
  predicate Advances(before: Option<Checkpoint>, after: Option<Checkpoint>) {
    before.Some? ==>
      && after.Some? && before.value.sequence <= after.value.sequence
      && (before.value.sequence == after.value.sequence ==> before == after)
  }

  lemma VerifiedIsFresh(p: Primitives, envelope: Json, root: Root, origin: string, now: int,
                        previous: Option<Checkpoint>)
    requires Verify(p, envelope, root, origin, now, previous).Some?
    ensures var v := Verify(p, envelope, root, origin, now, previous).value;
      && Timely(v.issuedAtMs, v.expiresAtMs, root, now)
      && NoRollback(v.sequence, v.payloadSha256, previous)
  {
    hide SignaturesOk, PayloadCanonical, PayloadFieldsOk, PolicyOk, ValidRoot, KeyIds;
  }

  /** Two acceptances of one envelope give one approval. */
  lemma ApprovalIsFixed(p: Primitives, envelope: Json, root: Root, o1: string, n1: int, c1: Option<Checkpoint>,
                      o2: string, n2: int, c2: Option<Checkpoint>)
    requires Verify(p, envelope, root, o1, n1, c1).Some? && Verify(p, envelope, root, o2, n2, c2).Some?
    ensures Verify(p, envelope, root, o1, n1, c1) == Verify(p, envelope, root, o2, n2, c2)
  {
    hide Acceptable;
  }

  lemma ResolveKeeps(p: Primitives, root: Root, m: Memory, c: Call)
    requires CacheMatches(p, root, m)
    ensures var (m', approval) := ResolveStep(p, root, m, c);
      && CacheMatches(p, root, m') && Advances(m.checkpoint, m'.checkpoint)
      && (approval.Some? ==> m'.checkpoint == Some(Checkpoint(approval.value.sequence, approval.value.payloadSha256)))
  {
    hide Verify, Timely;
    var (m', approval) := ResolveStep(p, root, m, c);
    if m' != m || approval.Some? {
      var envelope := Candidate(root, m, c).value.envelope;
      VerifiedIsFresh(p, envelope, root, c.origin, c.checked, m.checkpoint);
      assert GaveAt(p, root, envelope, m'.checkpoint.value, c.origin, c.checked, m.checkpoint);
      if approval.Some? {
        ApprovalIsFixed(p, envelope, root, c.origin, c.checked, m.checkpoint, c.origin, c.returned, m'.checkpoint);
      }
    }
  }

  /** Every approval handed out is unexpired, and not from the future, at the last reading of the clock. */
  lemma ReturnedIsFresh(p: Primitives, root: Root, m: Memory, c: Call)
    requires ResolveStep(p, root, m, c).1.Some?
    ensures var v := ResolveStep(p, root, m, c).1.value;
      v.issuedAtMs <= c.returned < v.expiresAtMs && v.expiresAtMs - v.issuedAtMs <= root.maxLifetimeMs
  {
    hide Verify;
    var envelope := Candidate(root, m, c).value.envelope;
    var verified := Verify(p, envelope, root, c.origin, c.checked, m.checkpoint).value;
    VerifiedIsFresh(p, envelope, root, c.origin, c.returned,
                    Some(Checkpoint(verified.sequence, verified.payloadSha256)));
  }

  // ---- Cached answers ------------------------------------------------------------------------

  /** A cached envelope never fails the rollback check: the checkpoint makes no difference to it. */
  lemma CacheIsNeverRollback(p: Primitives, root: Root, m: Memory, origin: string, now: int)
    requires CacheMatches(p, root, m) && m.cached.Some?
    ensures Verify(p, m.cached.value.envelope, root, origin, now, m.checkpoint)
         == Verify(p, m.cached.value.envelope, root, origin, now, None)
  {
    var envelope := m.cached.value.envelope;
    var o, n, previous :| GaveAt(p, root, envelope, m.checkpoint.value, o, n, previous);
    SameButForTime(p, envelope, root, o, n, previous, origin, now, m.checkpoint);
    SameButForTime(p, envelope, root, o, n, previous, origin, now, None);
  }

  /** What is left to decide about an envelope that was accepted once. */
  lemma SameButForTime(p: Primitives, envelope: Json, root: Root, o: string, n: int, previous: Option<Checkpoint>,
                       origin: string, now: int, next: Option<Checkpoint>)
    requires Verify(p, envelope, root, o, n, previous).Some?
    ensures var v := Verify(p, envelope, root, o, n, previous).value;
      Verify(p, envelope, root, origin, now, next) ==
        if SafeAtLeast(now, 0) && Timely(v.issuedAtMs, v.expiresAtMs, root, now)
           && NoRollback(v.sequence, v.payloadSha256, next)
           && PolicyOk(Some(v.policy), root, p.canonicalOrigin(origin), v.manifestSha256)
        then Some(v) else None
  {
    hide SignaturesOk, PayloadCanonical, PayloadFieldsOk, PolicyOk, ValidRoot, EnvelopeOk, Timely, NoRollback, KeyIds;
    if Verify(p, envelope, root, origin, now, next).Some? {
      ApprovalIsFixed(p, envelope, root, o, n, previous, origin, now, next);
    }
    PolicyHere(p, envelope, root, o, n, previous);
  }

  lemma PolicyHere(p: Primitives, envelope: Json, root: Root, origin: string, now: int, previous: Option<Checkpoint>)
    requires Acceptable(p, envelope, root, origin, now, previous)
    ensures var v := Approval(p, envelope, root); var raw := p.parse(GetText(envelope, "payload").value).value;
      Some(v.policy) == p.load(Get(raw, "policy").value)
  {
    hide SignaturesOk, PayloadCanonical, PayloadFieldsOk, ValidRoot, EnvelopeOk, Timely, NoRollback, KeyIds;
  }

  /**
   * A call falls back on the cached envelope: it is young enough and no refresh is forced, or the
   * feed could not be reached, or it answered with a server error.
   */
  predicate FallsBack(root: Root, m: Memory, c: Call) {
    && m.cached.Some?
    && ((!c.forceRefresh && c.time - m.cached.value.refreshedAt < root.refreshMs)
        || c.answer == FetchThrows(false)
        || (c.answer.Refused? && c.answer.status >= 500))
  }

  /** A call judges what the feed just published. */
  predicate Publishes(root: Root, m: Memory, c: Call) {
    && (c.forceRefresh || m.cached.None? || c.time - m.cached.value.refreshedAt >= root.refreshMs)
    && c.answer.Answered? && c.answer.body.Publication?
  }

  /**
   * What a call judges, from its own fields: the cached envelope, or the publication with the clock
   * reading taken after it, or nothing: an aborted fetch, a client error or an unusable body refuses.
   */
  lemma JudgedExactly(root: Root, m: Memory, c: Call)
    ensures !(FallsBack(root, m, c) && Publishes(root, m, c))
    ensures FallsBack(root, m, c) ==> Candidate(root, m, c) == m.cached
    ensures Publishes(root, m, c) ==> Candidate(root, m, c) == Some(Cached(c.answer.body.envelope, c.refreshed))
    ensures !FallsBack(root, m, c) && !Publishes(root, m, c) ==> Candidate(root, m, c).None?
  {}

  /** A call with nothing to judge, or cancelled, throws and leaves the memory alone. */
  lemma NothingToJudge(p: Primitives, root: Root, m: Memory, c: Call)
    requires c.aborted || (!FallsBack(root, m, c) && !Publishes(root, m, c))
    ensures ResolveStep(p, root, m, c) == (m, None)
  {
    JudgedExactly(root, m, c);
  }

  /** A call that falls back on the cache never changes the memory: the answer's age is not renewed. */
  lemma FallbackKeepsMemory(p: Primitives, root: Root, m: Memory, c: Call)
    requires CacheMatches(p, root, m) && FallsBack(root, m, c)
    ensures ResolveStep(p, root, m, c).0 == m
  {
    JudgedExactly(root, m, c);
    hide Candidate, Verify;
    SameCheckpoint(p, root, m, c.origin, c.checked);
  }

  /** Judging the cached envelope again gives the checkpoint that is already there. */
  lemma SameCheckpoint(p: Primitives, root: Root, m: Memory, origin: string, now: int)
    requires CacheMatches(p, root, m) && m.cached.Some?
    ensures var v := Verify(p, m.cached.value.envelope, root, origin, now, m.checkpoint);
      v.Some? ==> Noted(v.value) == m.checkpoint
  {
    hide Verify;
    var envelope := m.cached.value.envelope;
    var o, n, previous :| GaveAt(p, root, envelope, m.checkpoint.value, o, n, previous);
    if Verify(p, envelope, root, origin, now, m.checkpoint).Some? {
      ApprovalIsFixed(p, envelope, root, o, n, previous, origin, now, m.checkpoint);
    }
  }

  /**
   * A publication is answered, remembered or refused: it must be fresh enough by the reading after the
   * fetch, verify against the checkpoint, and be stored; then it and its reading are remembered, and
   * the answer is the approval if it still verifies at the last reading.
   */
  lemma PublishedAnswerExactly(p: Primitives, root: Root, m: Memory, c: Call)
    requires Publishes(root, m, c)
    ensures var envelope := c.answer.body.envelope;
      var verified := Verify(p, envelope, root, c.origin, c.checked, m.checkpoint);
      var kept := !c.aborted && c.stale - c.refreshed <= root.maxStaleMs && verified.Some? && c.stored;
      && ResolveStep(p, root, m, c).0
         == (if kept then Memory(Noted(verified.value), Some(Cached(envelope, c.refreshed))) else m)
      && ResolveStep(p, root, m, c).1
         == (if kept then Verify(p, envelope, root, c.origin, c.returned, Noted(verified.value)) else None)
  {
    hide Verify, Candidate;
    JudgedExactly(root, m, c);
  }

  /** A call that falls back on the cache is answered exactly while the approval lasts, for every origin it covers. */
  lemma CachedAnswerExactly(p: Primitives, root: Root, m: Memory, c: Call, v: Verified)
    requires CacheMatches(p, root, m) && FallsBack(root, m, c)
    requires exists o, n, previous :: Verify(p, m.cached.value.envelope, root, o, n, previous) == Some(v)
    ensures ResolveStep(p, root, m, c).1 ==
      if !c.aborted && c.stale - m.cached.value.refreshedAt <= root.maxStaleMs && c.stored
         && SafeAtLeast(c.checked, 0) && SafeAtLeast(c.returned, 0)
         && Timely(v.issuedAtMs, v.expiresAtMs, root, c.checked)
         && Timely(v.issuedAtMs, v.expiresAtMs, root, c.returned)
         && PolicyOk(Some(v.policy), root, p.canonicalOrigin(c.origin), v.manifestSha256)
      then Some(v) else None
  {
    JudgedExactly(root, m, c);
    hide Verify, Timely, PolicyOk, SafeAtLeast, CacheMatches, Candidate;
    var envelope := m.cached.value.envelope;
    var o, n, previous :| Verify(p, envelope, root, o, n, previous) == Some(v);
    var seen := Some(Checkpoint(v.sequence, v.payloadSha256));
    CacheIsNeverRollback(p, root, m, c.origin, c.checked);
    SameButForTime(p, envelope, root, o, n, previous, c.origin, c.checked, None);
    SameButForTime(p, envelope, root, o, n, previous, c.origin, c.returned, seen);
  }

  // ---- Whole histories ------------------------------------------------------------------------

  /** The memory after these calls, one after the other. */
  ghost function After(p: Primitives, root: Root, m: Memory, calls: seq<Call>): Memory {
    if calls == [] then m
    else ResolveStep(p, root, After(p, root, m, calls[..|calls| - 1]), calls[|calls| - 1]).0
  }

  /** What call i of the history returns. */
  ghost function Returned(p: Primitives, root: Root, m: Memory, calls: seq<Call>, i: nat): Option<Verified>
    requires i < |calls|
  {
    ResolveStep(p, root, After(p, root, m, calls[..i]), calls[i]).1
  }

  lemma {:induction false} HistoryAdvances(p: Primitives, root: Root, m: Memory, calls: seq<Call>, i: nat)
    requires CacheMatches(p, root, m) && i <= |calls|
    ensures CacheMatches(p, root, After(p, root, m, calls))
    ensures Advances(After(p, root, m, calls[..i]).checkpoint, After(p, root, m, calls).checkpoint)
    ensures Advances(m.checkpoint, After(p, root, m, calls).checkpoint)
    decreases |calls|
  {
    if calls != [] {
      var init, last := calls[..|calls| - 1], calls[|calls| - 1];
      hide CacheMatches, ResolveStep;
      HistoryAdvances(p, root, m, init, if i < |calls| then i else 0);
      ResolveKeeps(p, root, After(p, root, m, init), last);
      if i < |calls| {
        assert init[..i] == calls[..i];
      } else {
        assert calls[..i] == calls;
      }
    } else {
      assert calls[..i] == calls;
    }
  }

  /** In every history the approvals handed out never go back, and one sequence number means one payload digest. */
  lemma ApprovalsNeverGoBack(p: Primitives, root: Root, m: Memory, calls: seq<Call>, i: nat, j: nat)
    requires m.cached.None? && i < j < |calls|
    requires Returned(p, root, m, calls, i).Some? && Returned(p, root, m, calls, j).Some?
    ensures Advances(m.checkpoint, Noted(Returned(p, root, m, calls, i).value))
    ensures Advances(Noted(Returned(p, root, m, calls, i).value), Noted(Returned(p, root, m, calls, j).value))
  {
    hide *;
    NoCacheMatches(p, root, m);
    ReturnedIsCheckpoint(p, root, m, calls, i);
    ReturnedIsCheckpoint(p, root, m, calls, j);
    LaterAdvances(p, root, m, calls, i + 1, j + 1);
  }

  lemma NoCacheMatches(p: Primitives, root: Root, m: Memory)
    requires m.cached.None?
    ensures CacheMatches(p, root, m)
  {}

  lemma LaterAdvances(p: Primitives, root: Root, m: Memory, calls: seq<Call>, i: nat, j: nat)
    requires CacheMatches(p, root, m) && i <= j <= |calls|
    ensures Advances(m.checkpoint, After(p, root, m, calls[..i]).checkpoint)
    ensures Advances(After(p, root, m, calls[..i]).checkpoint, After(p, root, m, calls[..j]).checkpoint)
  {
    hide *;
    assert calls[..j][..i] == calls[..i];
    HistoryAdvances(p, root, m, calls[..j], i);
    HistoryAdvances(p, root, m, calls[..i], 0);
  }

  lemma ReturnedIsCheckpoint(p: Primitives, root: Root, m: Memory, calls: seq<Call>, i: nat)
    requires CacheMatches(p, root, m) && i < |calls| && Returned(p, root, m, calls, i).Some?
    ensures After(p, root, m, calls[..i + 1]).checkpoint == Noted(Returned(p, root, m, calls, i).value)
  {
    hide CacheMatches, ResolveStep;
    HistoryAdvances(p, root, m, calls[..i], 0);
    ResolveKeeps(p, root, After(p, root, m, calls[..i]), calls[i]);
    var longer := calls[..i + 1];
    assert longer[..|longer| - 1] == calls[..i] && longer[|longer| - 1] == calls[i];
    assert After(p, root, m, longer) == ResolveStep(p, root, After(p, root, m, calls[..i]), calls[i]).0;
  }

  // ---- Concurrent calls -------------------------------------------------------------------------

  /** The variables under the lock, with what each finished call has returned so far. */
  datatype Record = Record(memory: Memory, returned: seq<Option<Verified>>)

  /** One call's critical section. */
  ghost function Perform(p: Primitives, root: Root, r: Record, c: Call): Record {
    var (memory, approval) := ResolveStep(p, root, r.memory, c);
    Record(memory, r.returned + [approval])
  }

  /** These bodies are those of resolve, for these calls in turn. */
  ghost predicate Resolves(p: Primitives, root: Root, bodies: seq<Record -> Record>, calls: seq<Call>) {
    && |bodies| == |calls|
    && forall i | 0 <= i < |calls| :: Performs(p, root, bodies[i], calls[i])
  }

  ghost predicate Performs(p: Primitives, root: Root, body: Record -> Record, c: Call) {
    forall r :: body(r) == Perform(p, root, r, c)
  }

  /** The record holds what these calls leave and return, made one after the other. */
  ghost predicate RecordsHistory(p: Primitives, root: Root, m: Memory, calls: seq<Call>, r: Record) {
    && r.memory == After(p, root, m, calls)
    && |r.returned| == |calls|
    && forall i | 0 <= i < |calls| :: r.returned[i] == Returned(p, root, m, calls, i)
  }

  /**
   * However resolve calls interleave at their awaits, the lock makes them a history of calls,
   * one after the other: the memory they leave and the answer each of them gives are the history's.
   */
  lemma InterleavedCallsAreAHistory(p: Primitives, root: Root, run: seq<PromiseLock.System<Record>>,
                                    steps: seq<PromiseLock.Step<Record>>, m: Memory, calls: seq<Call>)
    requires PromiseLock.IsRun(run, steps, Record(m, []))
    requires Resolves(p, root, PromiseLock.Bodies(steps), calls)
    ensures RecordsHistory(p, root, m, calls, run[|steps|].shared)
  {
    var _ := PromiseLock.RunIsSequential(run, steps, Record(m, []));
    BodiesMakeAHistory(p, root, PromiseLock.Bodies(steps), m, calls);
  }

  lemma {:induction false} BodiesMakeAHistory(p: Primitives, root: Root, bodies: seq<Record -> Record>, m: Memory,
                                              calls: seq<Call>)
    requires Resolves(p, root, bodies, calls)
    ensures RecordsHistory(p, root, m, calls, PromiseLock.Apply(bodies, Record(m, [])))
    decreases |calls|
  {
    if calls != [] {
      var n := |calls| - 1;
      BodiesMakeAHistory(p, root, bodies[..n], m, calls[..n]);
      assert Performs(p, root, bodies[n], calls[n]);
      hide Performs, ResolveStep, Returned;
      OneMoreCall(p, root, m, calls, PromiseLock.Apply(bodies[..n], Record(m, [])));
      LastBody(p, root, bodies, m, calls);
    }
  }

  lemma LastBody(p: Primitives, root: Root, bodies: seq<Record -> Record>, m: Memory, calls: seq<Call>)
    requires |bodies| == |calls| > 0 && Performs(p, root, bodies[|calls| - 1], calls[|calls| - 1])
    ensures PromiseLock.Apply(bodies, Record(m, []))
         == Perform(p, root, PromiseLock.Apply(bodies[..|calls| - 1], Record(m, [])), calls[|calls| - 1])
  {}

  lemma OneMoreCall(p: Primitives, root: Root, m: Memory, calls: seq<Call>, r: Record)
    requires calls != [] && RecordsHistory(p, root, m, calls[..|calls| - 1], r)
    ensures RecordsHistory(p, root, m, calls, Perform(p, root, r, calls[|calls| - 1]))
  {
    hide ResolveStep;
    var n := |calls| - 1;
    var init := calls[..n];
    forall i | 0 <= i < n ensures r.returned[i] == Returned(p, root, m, calls, i) {
      assert r.returned[i] == Returned(p, root, m, init, i);
      assert init[..i] == calls[..i];
    }
  }

  /**
   * The answers of interleaved calls: by order of arrival they never go back, one sequence
   * number means one digest, and each is unexpired at its own call's last clock reading.
   */
  lemma InterleavedApprovalsNeverGoBack(p: Primitives, root: Root, run: seq<PromiseLock.System<Record>>,
                                        steps: seq<PromiseLock.Step<Record>>, m: Memory, calls: seq<Call>,
                                        i: nat, j: nat)
    requires PromiseLock.IsRun(run, steps, Record(m, [])) && m.cached.None?
    requires Resolves(p, root, PromiseLock.Bodies(steps), calls) && i < j < |run[|steps|].shared.returned|
    requires run[|steps|].shared.returned[i].Some? && run[|steps|].shared.returned[j].Some?
    ensures |calls| == |run[|steps|].shared.returned|
    ensures var first, second := run[|steps|].shared.returned[i].value, run[|steps|].shared.returned[j].value;
      && Advances(m.checkpoint, Noted(first)) && Advances(Noted(first), Noted(second))
      && first.issuedAtMs <= calls[i].returned < first.expiresAtMs
      && second.issuedAtMs <= calls[j].returned < second.expiresAtMs
  {
    InterleavedCallsAreAHistory(p, root, run, steps, m, calls);
    assert Returned(p, root, m, calls, i).Some? && Returned(p, root, m, calls, j).Some?;
    ReturnedIsFresh(p, root, After(p, root, m, calls[..i]), calls[i]);
    ReturnedIsFresh(p, root, After(p, root, m, calls[..j]), calls[j]);
    hide After, ResolveStep;
    ApprovalsNeverGoBack(p, root, m, calls, i, j);
  }
}
