/** The sliding-window mint pacer: a queue of the mints of the last minute. */
module MintPacer {
  import opened Wrappers

  const WINDOW := 60000
  const SLACK := 250

  /** The queue without the leading entries that are more than a minute old. */
  function Recent(queue: seq<int>, now: int): seq<int> {
    if queue != [] && now - queue[0] > WINDOW then Recent(queue[1..], now) else queue
  }

  /** What is dropped is a prefix of old entries, and the first one kept is not old. */
  lemma {:induction false} RecentIsSuffix(queue: seq<int>, now: int)
    ensures var r := Recent(queue, now);
      && |r| <= |queue| && r == queue[|queue| - |r|..]
      && (r != [] ==> now - r[0] <= WINDOW)
      && forall i | 0 <= i < |queue| - |r| :: now - queue[i] > WINDOW
  {
    if queue != [] && now - queue[0] > WINDOW { RecentIsSuffix(queue[1..], now); }
  }

  predicate Below(n: int, limit: real) { n as real < limit }

  /** All mints so far with the clock readings that did not mint left out; queue: mintTimestamps. */
  datatype Pace = Pace(history: seq<int>, queue: seq<int>)

  /** One turn of the outer loop at clock reading now. The limit is a number, not necessarily a whole one. */
  function Turn(p: Pace, now: int, limit: real): Pace {
    var recent := Recent(p.queue, now);
    if Below(|recent|, limit) then Pace(p.history + [now], recent + [now]) else p.(queue := recent)
  }

  function After(readings: seq<int>, limit: real): Pace {
    if readings == [] then Pace([], [])
    else Turn(After(readings[..|readings| - 1], limit), readings[|readings| - 1], limit)
  }

  /** The module-level queue and the function that waits on it. */
  class Pacer {
    const limit: real
    var mintTimestamps: seq<int>
    ghost var history: seq<int>

    ghost function View(): Pace
      reads this
    {
      Pace(history, mintTimestamps)
    }

    constructor (limit: real)
      ensures View() == After([], limit) && this.limit == limit
    {
      this.limit, mintTimestamps, history := limit, [], [];
    }

    /** One turn: it mints, or says how long to wait; with nothing minted yet there is no wait to compute. */
    method Attempt(now: int) returns (minted: bool, waitMs: Option<int>)
      modifies this`mintTimestamps, this`history
      ensures View() == Turn(old(View()), now, limit)
      ensures minted <==> history == old(history) + [now]
      ensures waitMs == if minted || mintTimestamps == [] then None
                        else Some(60250 - (now - mintTimestamps[0]))
    {
      hide Below;
      while |mintTimestamps| > 0 && now - mintTimestamps[0] > WINDOW
        invariant Recent(mintTimestamps, now) == Recent(old(mintTimestamps), now) && history == old(history)
        decreases |mintTimestamps|
      {
        mintTimestamps := mintTimestamps[1..];
      }
      if Below(|mintTimestamps|, limit) {
        mintTimestamps := mintTimestamps + [now];
        history := history + [now];
        return true, None;
      }
      minted := false;
      waitMs := if mintTimestamps == [] then None else Some(WINDOW - (now - mintTimestamps[0]) + SLACK);
    }
  }

  predicate NonDecreasing(s: seq<int>) { forall i, j | 0 <= i <= j < |s| :: s[i] <= s[j] }

  /** The queue is the part of the history that may still matter at the given time. */
  ghost predicate Inv(p: Pace, last: int, limit: real) {
    && |p.queue| <= |p.history| && p.queue == p.history[|p.history| - |p.queue|..]
    && (forall i | 0 <= i < |p.history| - |p.queue| :: last - p.history[i] > WINDOW)
    && NonDecreasing(p.history) && (forall i | 0 <= i < |p.history| :: p.history[i] <= last)
    && (p.queue != [] ==> Below(|p.queue| - 1, limit))
    && WindowsKept(p.history, limit)
  }

  /** Mints at most a window apart are fewer than the limit apart in the history. */
  ghost predicate WindowsKept(history: seq<int>, limit: real) {
    forall i, j | 0 <= i < j < |history| && history[j] - history[i] <= WINDOW :: Below(j - i, limit)
  }

  lemma TurnKeeps(p: Pace, last: int, now: int, limit: real)
    requires Inv(p, last, limit) && last <= now
    ensures Inv(Turn(p, now, limit), now, limit)
  {
    hide Below;
    var recent := Recent(p.queue, now);
    RecentIsSuffix(p.queue, now);
    DropKeeps(p, last, now, limit, recent);
    if Below(|recent|, limit) { PushKeeps(Pace(p.history, recent), now, limit); }
  }

  lemma DropKeeps(p: Pace, last: int, now: int, limit: real, recent: seq<int>)
    requires Inv(p, last, limit) && last <= now && |recent| <= |p.queue| && recent == p.queue[|p.queue| - |recent|..]
    requires forall i | 0 <= i < |p.queue| - |recent| :: now - p.queue[i] > WINDOW
    ensures Inv(Pace(p.history, recent), now, limit)
  {
    var n, k := |p.history| - |p.queue|, |p.history| - |recent|;
    assert recent == p.history[k..];
    forall i | 0 <= i < k ensures now - p.history[i] > WINDOW {
      if i >= n { assert p.history[i] == p.queue[i - n]; }
    }
  }

  lemma PushKeeps(p: Pace, now: int, limit: real)
    requires Inv(p, now, limit) && Below(|p.queue|, limit)
    ensures Inv(Pace(p.history + [now], p.queue + [now]), now, limit)
  {
    PushKeepsWindows(p, now, limit);
    hide Below, WindowsKept;
    var k, longer := |p.history| - |p.queue|, p.history + [now];
    assert longer[k..] == p.history[k..] + [now];
    assert forall i | 0 <= i < |p.history| :: longer[i] == p.history[i];
  }

  lemma PushKeepsWindows(p: Pace, now: int, limit: real)
    requires Inv(p, now, limit) && Below(|p.queue|, limit)
    ensures WindowsKept(p.history + [now], limit)
  {
    var n, k, longer := |p.history|, |p.history| - |p.queue|, p.history + [now];
    var queued := |p.queue|;
    forall i, j | 0 <= i < j < |longer| && longer[j] - longer[i] <= WINDOW ensures Below(j - i, limit) {
      if j == n {
        assert longer[i] == p.history[i] && i >= k;
        BelowIsDownward(j - i, queued, limit);
      } else {
        assert longer[i] == p.history[i] && longer[j] == p.history[j];
      }
    }
  }

  lemma BelowIsDownward(m: int, n: int, limit: real)
    requires m <= n && Below(n, limit)
    ensures Below(m, limit)
  {}

  lemma {:induction false} AfterKeeps(readings: seq<int>, limit: real)
    requires readings != [] && NonDecreasing(readings)
    ensures Inv(After(readings, limit), readings[|readings| - 1], limit)
  {
    var n := |readings| - 1;
    hide Inv, Turn, Below;
    if n > 0 {
      AfterKeeps(readings[..n], limit);
      TurnKeeps(After(readings[..n], limit), readings[n - 1], readings[n], limit);
    } else {
      assert readings[..n] == [];
      NothingYet(readings[0], limit);
      TurnKeeps(Pace([], []), readings[0], readings[0], limit);
    }
  }

  lemma NothingYet(last: int, limit: real)
    ensures Inv(Pace([], []), last, limit)
  {
    hide Below;
  }

  /** How many mints of the history fall into a closed interval. */
  function CountIn(history: seq<int>, from: int, to: int): nat {
    if history == [] then 0
    else CountIn(history[..|history| - 1], from, to) + (if from <= history[|history| - 1] <= to then 1 else 0)
  }

  /** In an ordered history the mints of an interval are consecutive. */
  lemma {:induction false} CountIsARange(history: seq<int>, from: int, to: int) returns (i: nat, j: nat)
    requires NonDecreasing(history)
    ensures i <= j <= |history| && CountIn(history, from, to) == j - i
    ensures forall k | 0 <= k < |history| :: i <= k < j <==> from <= history[k] <= to
    ensures i == j ==> i == |history|
  {
    if history == [] { return 0, 0; }
    var last := |history| - 1;
    i, j := CountIsARange(history[..last], from, to);
    if from <= history[last] <= to {
      if i == j { i := last; } else { assert from <= history[i] <= history[j - 1]; }
      j := last + 1;
    } else if i == j {
      i, j := last + 1, last + 1;
    }
  }

  /** No closed minute of the whole history holds more than limit mints (rounded up), for every non-decreasing clock. */
  lemma AtMostLimitPerMinute(readings: seq<int>, limit: real, from: int)
    requires NonDecreasing(readings)
    ensures var n := CountIn(After(readings, limit).history, from, from + 60000); n > 0 ==> n as real < limit + 1.0
  {
    if readings != [] {
      AfterKeeps(readings, limit);
      var history := After(readings, limit).history;
      var i, j := CountIsARange(history, from, from + WINDOW);
      if i + 1 < j { assert history[j - 1] - history[i] <= WINDOW; }
      if i + 1 == j { assert j - i == 1; FirstMintNeedsLimit(readings, limit); }
    }
  }

  /** A reading mints exactly when fewer than limit mints of the whole history lie within the minute before it. */
  lemma MintsExactly(readings: seq<int>, now: int, limit: real)
    requires NonDecreasing(readings + [now])
    ensures var history := After(readings, limit).history;
      After(readings + [now], limit).history
        == if CountIn(history, now - 60000, now) as real < limit then history + [now] else history
  {
    var longer := readings + [now];
    assert longer[..|readings|] == readings && longer[|readings|] == now;
    assert After(longer, limit) == Turn(After(readings, limit), now, limit);
    if readings == [] {
      NothingRecent(now);
    } else {
      var last := readings[|readings| - 1];
      assert longer[|readings| - 1] == last;
      PrefixNonDecreasing(readings, now);
      AfterKeeps(readings, limit);
      hide After, Inv, Recent, CountIn;
      QueueCounts(After(readings, limit), last, now, limit);
    }
  }

  lemma NothingRecent(now: int)
    ensures Recent([], now) == [] && CountIn([], now - 60000, now) == 0
  {}

  lemma QueueCounts(p: Pace, last: int, now: int, limit: real)
    requires Inv(p, last, limit) && last <= now
    ensures |Recent(p.queue, now)| == CountIn(p.history, now - 60000, now)
  {
    hide Below, Recent, WindowsKept;
    var recent := Recent(p.queue, now);
    RecentIsSuffix(p.queue, now);
    DropKeeps(p, last, now, limit, recent);
    SuffixIsRecent(Pace(p.history, recent), now, limit);
    CountSuffix(p.history, |p.history| - |recent|, now - 60000, now);
  }

  lemma SuffixIsRecent(p: Pace, now: int, limit: real)
    requires Inv(p, now, limit) && (p.queue != [] ==> now - p.queue[0] <= WINDOW)
    ensures forall i | |p.history| - |p.queue| <= i < |p.history| :: now - 60000 <= p.history[i] <= now
  {
    hide Below, WindowsKept;
    var k := |p.history| - |p.queue|;
    forall i | k <= i < |p.history| ensures now - 60000 <= p.history[i] <= now {
      assert p.history[k] == p.queue[0] && p.history[k] <= p.history[i];
    }
  }

  lemma PrefixNonDecreasing(readings: seq<int>, now: int)
    requires NonDecreasing(readings + [now])
    ensures NonDecreasing(readings)
  {
    var longer := readings + [now];
    assert forall i | 0 <= i < |readings| :: longer[i] == readings[i];
  }

  /** If the interval begins at position k of an ordered history and ends after it, it holds all that follows. */
  lemma {:induction false} CountSuffix(history: seq<int>, k: nat, from: int, to: int)
    requires k <= |history| && forall i | 0 <= i < k :: history[i] < from
    requires forall i | k <= i < |history| :: from <= history[i] <= to
    ensures CountIn(history, from, to) == |history| - k
  {
    if history != [] {
      var n := |history| - 1;
      CountSuffix(history[..n], if k <= n then k else n, from, to);
    }
  }

  /** Every minute of every history keeps the limit as configured, not rounded up. */
  ghost predicate KeepsLimit(limit: real) {
    forall readings, from :: NonDecreasing(readings) ==> MinuteWithin(readings, limit, from)
  }

  ghost predicate MinuteWithin(readings: seq<int>, limit: real, from: int) {
    CountIn(After(readings, limit).history, from, from + 60000) as real <= limit
  }

  /** A limit per minute is kept exactly when it is a whole number; any other positive one is overrun. */
  lemma LimitKeptExactlyWhenWhole(limit: real)
    requires limit > 0.0
    ensures KeepsLimit(limit) <==> limit == limit.Floor as real
  {
    hide MinuteWithin, After;
    if limit == limit.Floor as real {
      forall readings, from | NonDecreasing(readings) ensures MinuteWithin(readings, limit, from) {
        WholeLimitIsKept(readings, limit, from);
      }
    } else {
      var readings := FractionIsOverrun(limit);
      assert NonDecreasing(readings) && !MinuteWithin(readings, limit, 0);
    }
  }

  lemma WholeLimitIsKept(readings: seq<int>, limit: real, from: int)
    requires limit > 0.0 && limit == limit.Floor as real && NonDecreasing(readings)
    ensures MinuteWithin(readings, limit, from)
  {
    hide After, CountIn;
    AtMostLimitPerMinute(readings, limit, from);
    WholeBound(CountIn(After(readings, limit).history, from, from + WINDOW), limit);
  }

  lemma WholeBound(n: nat, limit: real)
    requires limit > 0.0 && limit == limit.Floor as real
    ensures n as real < limit + 1.0 ==> n as real <= limit
  {
    var k := limit.Floor;
    assert n <= k || n >= k + 1;
  }

  lemma FractionIsOverrun(limit: real) returns (readings: seq<int>)
    requires limit > 0.0 && limit != limit.Floor as real
    ensures NonDecreasing(readings) && !MinuteWithin(readings, limit, 0)
  {
    hide After, CountIn;
    var k := limit.Floor + 1;
    Burst(0, limit, k);
    readings := seq(k, _ => 0);
  }

  /** Callers at one instant mint as long as the count so far is below the limit. */
  lemma {:induction false} Burst(t: int, limit: real, k: nat)
    requires k == 0 || Below(k - 1, limit)
    ensures After(seq(k, _ => t), limit) == Pace(seq(k, _ => t), seq(k, _ => t))
    ensures CountIn(seq(k, _ => t), t, t + WINDOW) == k
  {
    var s := seq(k, _ => t);
    if k > 0 {
      BelowIsDownward(k - 2, k - 1, limit);
      hide Below, Turn;
      Burst(t, limit, k - 1);
      var earlier := seq(k - 1, _ => t);
      assert s[..k - 1] == earlier && s == earlier + [t];
      TurnAtOnce(earlier, t, limit);
    }
  }

  lemma TurnAtOnce(queue: seq<int>, t: int, limit: real)
    requires Below(|queue|, limit) && (queue != [] ==> queue[0] == t)
    ensures Turn(Pace(queue, queue), t, limit) == Pace(queue + [t], queue + [t])
  {
    hide Below;
  }

  /** A mint needs a positive limit. */
  lemma {:induction false} FirstMintNeedsLimit(readings: seq<int>, limit: real)
    ensures After(readings, limit).history != [] ==> limit > 0.0
  {
    if readings != [] { FirstMintNeedsLimit(readings[..|readings| - 1], limit); }
  }

  /** A refused caller that sleeps the computed time finds the oldest entry gone; alone, it mints then. */
  lemma WaitingAlwaysHelps(readings: seq<int>, limit: real, now: int, later: int)
    requires NonDecreasing(readings + [now]) && limit > 0.0
    requires var p := Turn(After(readings, limit), now, limit);
      p.history == After(readings, limit).history && later >= now + (60250 - (now - p.queue[0]))
    ensures var p := Turn(After(readings, limit), now, limit);
      && 250 <= 60250 - (now - p.queue[0])
      && later - p.queue[0] > 60000 && |Recent(p.queue, later)| < |p.queue|
      && Turn(p, later, limit).history == p.history + [later]
  {
    var p := Turn(After(readings, limit), now, limit);
    assert (readings + [now])[..|readings|] == readings;
    AfterKeeps(readings + [now], limit);
    assert p.queue != [];
    RecentIsSuffix(After(readings, limit).queue, now);
    RecentIsSuffix(p.queue, later);
  }
}
