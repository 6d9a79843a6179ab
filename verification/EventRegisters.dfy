/**
 * Which entries each measurement register commits to, by their positions in the log: its own
 * entries, all of them, in log order.
 */
module EventRegisters {
  import opened Wrappers
  import opened Text
  import opened EventLog
  import Utf8

  ghost predicate Ascending(at: seq<nat>) { forall j, k | 0 <= j < k < |at| :: at[j] < at[k] }

  /** Each position holds an entry of the register. */
  ghost predicate Hold(log: seq<Event>, imr: nat, at: seq<nat>) {
    forall k | 0 <= k < |at| :: at[k] < |log| && log[at[k]].imr == imr
  }

  /** No entry of the register is missing. */
  ghost predicate Complete(log: seq<Event>, imr: nat, at: seq<nat>) {
    forall i | 0 <= i < |log| && log[i].imr == imr :: i in at
  }

  /** These positions are those of the register's entries, in log order. */
  ghost predicate Positions(log: seq<Event>, imr: nat, at: seq<nat>) {
    Hold(log, imr, at) && Ascending(at) && Complete(log, imr, at)
  }

  predicate Within(log: seq<Event>, at: seq<nat>) { forall k | 0 <= k < |at| :: at[k] < |log| }

  function At(log: seq<Event>, at: seq<nat>): (events: seq<Event>)
    requires Within(log, at)
    ensures |events| == |at| && forall k | 0 <= k < |at| :: events[k] == log[at[k]]
  {
    seq(|at|, k requires 0 <= k < |at| => log[at[k]])
  }

  /** The entries the replay picks for a register are those at its positions. */
  lemma {:induction false} PicksItsEntries(log: seq<Event>, imr: nat) returns (at: seq<nat>)
    ensures Positions(log, imr, at) && OfRegister(log, imr) == At(log, at)
  {
    if log == [] { return []; }
    var later := PicksItsEntries(log[1..], imr);
    hide OfRegister, Hold, Ascending, Complete, At, Whole;
    LaterPositions(log, imr, later);
    at := Whole(log, imr, later);
    PicksHead(log, imr, later);
  }

  /** Positions in the rest of a log, counted in the whole. */
  function Shifted(later: seq<nat>): (at: seq<nat>)
    ensures |at| == |later| && forall k | 0 <= k < |at| :: at[k] == later[k] + 1
  {
    seq(|later|, k requires 0 <= k < |later| => later[k] + 1)
  }

  function Whole(log: seq<Event>, imr: nat, later: seq<nat>): seq<nat>
    requires log != []
  {
    if log[0].imr == imr then [0] + Shifted(later) else Shifted(later)
  }

  lemma LaterPositions(log: seq<Event>, imr: nat, later: seq<nat>)
    requires log != [] && Positions(log[1..], imr, later)
    ensures Positions(log, imr, Whole(log, imr, later))
  {
    LaterHold(log, imr, later);
    LaterAscend(log, imr, later);
    LaterComplete(log, imr, later);
  }

  lemma LaterHold(log: seq<Event>, imr: nat, later: seq<nat>)
    requires log != [] && Hold(log[1..], imr, later)
    ensures Hold(log, imr, Whole(log, imr, later))
  {
    var at, moved := Whole(log, imr, later), Shifted(later);
    forall k | 0 <= k < |moved| ensures moved[k] < |log| && log[moved[k]].imr == imr {
      assert log[moved[k]] == log[1..][later[k]];
    }
    hide Shifted;
    if log[0].imr == imr {
      forall k | 0 <= k < |at| ensures at[k] < |log| && log[at[k]].imr == imr {
        if k > 0 { assert at[k] == moved[k - 1]; }
      }
    }
  }

  lemma LaterAscend(log: seq<Event>, imr: nat, later: seq<nat>)
    requires log != [] && Ascending(later)
    ensures Ascending(Whole(log, imr, later))
  {
    var at, moved := Whole(log, imr, later), Shifted(later);
    forall j, k | 0 <= j < k < |at| ensures at[j] < at[k] {
      if log[0].imr == imr { assert at[k] == moved[k - 1] && (j > 0 ==> at[j] == moved[j - 1]); }
    }
  }

  lemma LaterComplete(log: seq<Event>, imr: nat, later: seq<nat>)
    requires log != [] && Complete(log[1..], imr, later)
    ensures Complete(log, imr, Whole(log, imr, later))
  {
    var tail := log[1..];
    forall i | 0 <= i < |log| && log[i].imr == imr ensures i in Whole(log, imr, later) {
      if i > 0 {
        assert tail[i - 1] == log[i];
        var k :| 0 <= k < |later| && later[k] == i - 1;
        assert Shifted(later)[k] == i;
        assert i in Shifted(later);
      }
    }
  }

  lemma AtShifted(log: seq<Event>, later: seq<nat>)
    requires log != [] && Within(log[1..], later)
    ensures Within(log, Shifted(later)) && At(log, Shifted(later)) == At(log[1..], later)
  {
    var a, b := At(log[1..], later), Shifted(later);
    forall k | 0 <= k < |later| ensures b[k] < |log| && a[k] == log[b[k]] {
      assert log[1..][later[k]] == log[later[k] + 1];
    }
  }

  lemma AtCons(log: seq<Event>, at: seq<nat>)
    requires log != [] && Within(log, at)
    ensures Within(log, [0] + at) && At(log, [0] + at) == [log[0]] + At(log, at)
  {
    var longer := [0] + at;
    forall k | 0 <= k < |longer| ensures longer[k] < |log| && log[longer[k]] == ([log[0]] + At(log, at))[k] {
      if k > 0 { assert longer[k] == at[k - 1]; }
    }
  }

  lemma PicksHead(log: seq<Event>, imr: nat, later: seq<nat>)
    requires log != [] && Hold(log[1..], imr, later) && OfRegister(log[1..], imr) == At(log[1..], later)
    ensures Hold(log, imr, Whole(log, imr, later))
    ensures OfRegister(log, imr) == At(log, Whole(log, imr, later))
  {
    HeadOfRegister(log, imr);
    LaterHold(log, imr, later);
    assert Within(log[1..], later);
    hide OfRegister, Shifted, At, Within, Hold;
    AtShifted(log, later);
    AtCons(log, Shifted(later));
  }

  lemma HeadOfRegister(log: seq<Event>, imr: nat)
    requires log != []
    ensures OfRegister(log, imr)
      == if log[0].imr == imr then [log[0]] + OfRegister(log[1..], imr) else OfRegister(log[1..], imr)
  {
    assert [] + OfRegister(log[1..], imr) == OfRegister(log[1..], imr);
  }

  /** A register's positions are determined by the log. */
  lemma PositionsAreUnique(log: seq<Event>, imr: nat, a: seq<nat>, b: seq<nat>)
    requires Positions(log, imr, a) && Positions(log, imr, b)
    ensures a == b
  {
    AscendingSubset(a, b);
    AscendingSubset(b, a);
  }

  lemma {:induction false} AscendingSubset(a: seq<nat>, b: seq<nat>)
    requires Ascending(a) && Ascending(b) && forall x | x in a :: x in b
    ensures |a| <= |b| && (|a| == |b| ==> a == b)
    decreases |b|
  {
    if a != [] {
      assert a[0] in b;
      var k :| 0 <= k < |b| && b[k] == a[0];
      var a' := if k == 0 then a[1..] else a;
      forall x | x in a' ensures x in b[1..] {
        assert x in a;
        var i :| 0 <= i < |a| && a[i] == x;
        var j :| 0 <= j < |b| && b[j] == x;
        assert j > 0 by { assert k > 0 ==> b[0] < b[k]; }
        assert b[1..][j - 1] == x;
      }
      AscendingSubset(a', b[1..]);
    }
  }

  // ---- What each register commits to ----------------------------------------------------------

  predicate HexDigests(log: seq<Event>) { forall e | e in log :: IsHex(e.digest) }

  /** Padding appends zeros up to 48 bytes and keeps everything else. */
  lemma PaddingExactly(content: Bytes)
    ensures content <= Pad(content) && |Pad(content)| == (if |content| < 48 then 48 else |content|)
    ensures forall i | |content| <= i < |Pad(content)| :: Pad(content)[i] == 0
  {}

  /** One more digest extends the register by hashing it behind the value so far; it starts as 48 zero bytes. */
  lemma OneExtension(hash: Hash, digests: seq<string>, digest: string)
    requires IsHex(digest) && forall i | 0 <= i < |digests| :: IsHex(digests[i])
    ensures Replayed(hash, []) == BytesToHex(seq(48, _ => 0))
    ensures Replayed(hash, digests + [digest])
      == BytesToHex(hash(HexToBytes(Replayed(hash, digests)) + Pad(HexToBytes(digest))))
  {
    assert Repeat(0, 48) == seq<Byte>(48, _ => 0);
    var longer := digests + [digest];
    assert Contents(longer)[..|digests|] == Contents(digests);
    BytesOfHexOfBytes(RegisterAfter(hash, Contents(digests)));
  }

  lemma SuppliedReplay(hash: Hash, decode: Decode, log: seq<Event>, r: nat)
    requires HexDigests(log) && r < 3
    ensures forall i | 0 <= i < |OfRegister(log, r)| :: IsHex(OfRegister(log, r)[i].digest)
    ensures ReplayRtmrs(hash, decode, log)[r]
      == BytesToHex(RegisterAfter(hash, Contents(SuppliedDigests(OfRegister(log, r)))))
  {
    hide RegisterAfter, OfRegister;
    forall i | 0 <= i < |OfRegister(log, r)| ensures IsHex(OfRegister(log, r)[i].digest) {
      assert OfRegister(log, r)[i] in log;
    }
  }

  /** What hashing the digests of these entries, supplied with the log, puts through SHA-384. */
  function SuppliedInputs(hash: Hash, entries: seq<Event>): seq<Bytes>
    requires forall i | 0 <= i < |entries| :: IsHex(entries[i].digest)
  {
    ChainInputs(hash, Contents(SuppliedDigests(entries)))
  }

  /**
   * Registers 0 to 2: two logs that replay to one value supply the same padded digests, in order and
   * number, at that register's positions; or their replays collide, or hit the initial value.
   */
  lemma SuppliedRegisterCommits(hash: Hash, decode: Decode, log1: seq<Event>, log2: seq<Event>, r: nat,
                                p: seq<nat>, q: seq<nat>)
    requires FixedSize(hash) && HexDigests(log1) && HexDigests(log2) && r < 3
    requires Positions(log1, r, p) && Positions(log2, r, q)
    requires ReplayRtmrs(hash, decode, log1)[r] == ReplayRtmrs(hash, decode, log2)[r]
    ensures forall k | 0 <= k < |p| :: IsHex(log1[p[k]].digest)
    ensures forall k | 0 <= k < |q| :: IsHex(log2[q[k]].digest)
    ensures var xs, ys := SuppliedInputs(hash, At(log1, p)), SuppliedInputs(hash, At(log2, q));
      || (|p| == |q| && forall k | 0 <= k < |p| ::
            Pad(HexToBytes(log1[p[k]].digest)) == Pad(HexToBytes(log2[q[k]].digest)))
      || CollisionBetween(hash, xs, ys) || Hits(hash, xs + ys, Repeat(0, DIGEST_BYTES))
  {
    SuppliedAtPositions(log1, r, p);
    SuppliedAtPositions(log2, r, q);
    SuppliedReplay(hash, decode, log1, r);
    SuppliedReplay(hash, decode, log2, r);
    hide ReplayRtmrs, RegisterAfter, ChainInputs, CollisionBetween, Hits, OfRegister;
    hide Ascending, Complete, Pad, Contents;
    SuppliedEntriesCommit(hash, log1, log2, p, q);
  }

  lemma SuppliedEntriesCommit(hash: Hash, log1: seq<Event>, log2: seq<Event>, p: seq<nat>, q: seq<nat>)
    requires FixedSize(hash) && Within(log1, p) && Within(log2, q)
    requires forall k | 0 <= k < |p| :: IsHex(log1[p[k]].digest)
    requires forall k | 0 <= k < |q| :: IsHex(log2[q[k]].digest)
    requires BytesToHex(RegisterAfter(hash, Contents(SuppliedDigests(At(log1, p)))))
      == BytesToHex(RegisterAfter(hash, Contents(SuppliedDigests(At(log2, q)))))
    ensures var xs, ys := SuppliedInputs(hash, At(log1, p)), SuppliedInputs(hash, At(log2, q));
      || (|p| == |q| && forall k | 0 <= k < |p| ::
            Pad(HexToBytes(log1[p[k]].digest)) == Pad(HexToBytes(log2[q[k]].digest)))
      || CollisionBetween(hash, xs, ys) || Hits(hash, xs + ys, Repeat(0, DIGEST_BYTES))
  {
    var a, b := Contents(SuppliedDigests(At(log1, p))), Contents(SuppliedDigests(At(log2, q)));
    if PaddedAll(a) == PaddedAll(b) { SamePaddedDigests(log1, log2, p, q); }
    hide RegisterAfter, ChainInputs, CollisionBetween, Hits, Pad, PaddedAll, Contents, SuppliedDigests, At;
    EqualHexBinds(hash, a, b);
  }

  lemma EqualHexBinds(hash: Hash, a: seq<Bytes>, b: seq<Bytes>)
    requires FixedSize(hash) && BytesToHex(RegisterAfter(hash, a)) == BytesToHex(RegisterAfter(hash, b))
    ensures var xs, ys := ChainInputs(hash, a), ChainInputs(hash, b);
      PaddedAll(a) == PaddedAll(b) || CollisionBetween(hash, xs, ys) || Hits(hash, xs + ys, Repeat(0, DIGEST_BYTES))
  {
    BytesOfHexOfBytes(RegisterAfter(hash, a));
    BytesOfHexOfBytes(RegisterAfter(hash, b));
    ReplayBinds(hash, a, b);
  }

  lemma SuppliedAtPositions(log: seq<Event>, r: nat, p: seq<nat>)
    requires HexDigests(log) && Positions(log, r, p)
    ensures OfRegister(log, r) == At(log, p) && forall k | 0 <= k < |p| :: IsHex(log[p[k]].digest)
    ensures forall k | 0 <= k < |p| :: IsHex(At(log, p)[k].digest)
  {
    var at := PicksItsEntries(log, r);
    PositionsAreUnique(log, r, p, at);
    hide OfRegister, Ascending, Complete;
  }

  lemma SamePaddedDigests(log1: seq<Event>, log2: seq<Event>, p: seq<nat>, q: seq<nat>)
    requires Within(log1, p) && Within(log2, q)
    requires forall k | 0 <= k < |p| :: IsHex(log1[p[k]].digest)
    requires forall k | 0 <= k < |q| :: IsHex(log2[q[k]].digest)
    requires PaddedAll(Contents(SuppliedDigests(At(log1, p)))) == PaddedAll(Contents(SuppliedDigests(At(log2, q))))
    ensures |p| == |q|
    ensures forall k | 0 <= k < |p| :: Pad(HexToBytes(log1[p[k]].digest)) == Pad(HexToBytes(log2[q[k]].digest))
  {
    var a, b := Contents(SuppliedDigests(At(log1, p))), Contents(SuppliedDigests(At(log2, q)));
    assert |a| == |PaddedAll(a)| && |b| == |PaddedAll(b)|;
    forall k | 0 <= k < |p| ensures Pad(HexToBytes(log1[p[k]].digest)) == Pad(HexToBytes(log2[q[k]].digest)) {
      assert PaddedAll(a)[k] == PaddedAll(b)[k];
    }
  }

  // ---- Register 3 ---------------------------------------------------------------------------------

  /** The bytes register 3 is extended by for an entry: the digest of what it serializes to, or 48 times 0xff. */
  function Derived(hash: Hash, decode: Decode, e: Event): Bytes {
    var preimage := EventPreimage(hash, decode, e);
    if preimage.Some? then hash(preimage.value) else seq(48, _ => 0xff)
  }

  /**
   * Register 3: two logs that replay to one value derive the same digests from their own entries, in
   * order and number, at that register's positions; or their replays collide, or hit the initial value.
   */
  lemma DerivedRegisterCommits(hash: Hash, decode: Decode, log1: seq<Event>, log2: seq<Event>, p: seq<nat>, q: seq<nat>)
    requires FixedSize(hash) && HexDigests(log1) && HexDigests(log2)
    requires Positions(log1, 3, p) && Positions(log2, 3, q)
    requires ReplayRtmrs(hash, decode, log1)[3] == ReplayRtmrs(hash, decode, log2)[3]
    ensures var xs := ChainInputs(hash, Contents(DerivedDigests(hash, decode, At(log1, p))));
      var ys := ChainInputs(hash, Contents(DerivedDigests(hash, decode, At(log2, q))));
      || (|p| == |q| && forall k | 0 <= k < |p| ::
            Derived(hash, decode, log1[p[k]]) == Derived(hash, decode, log2[q[k]]))
      || CollisionBetween(hash, xs, ys) || Hits(hash, xs + ys, Repeat(0, DIGEST_BYTES))
  {
    var at1 := PicksItsEntries(log1, 3);
    var at2 := PicksItsEntries(log2, 3);
    PositionsAreUnique(log1, 3, p, at1);
    PositionsAreUnique(log2, 3, q, at2);
    hide RegisterAfter, ChainInputs, CollisionBetween, Hits, OfRegister, Positions, Pad, DerivedDigests, EventPreimage;
    var a := Contents(DerivedDigests(hash, decode, At(log1, p)));
    var b := Contents(DerivedDigests(hash, decode, At(log2, q)));
    EqualHexBinds(hash, a, b);
    hide ReplayRtmrs;
    if PaddedAll(a) == PaddedAll(b) {
      assert |p| == |PaddedAll(a)| && |q| == |PaddedAll(b)|;
      forall k | 0 <= k < |p| ensures Derived(hash, decode, log1[p[k]]) == Derived(hash, decode, log2[q[k]]) {
        DerivedContentAt(hash, decode, At(log1, p), k);
        DerivedContentAt(hash, decode, At(log2, q), k);
      }
    }
  }

  lemma DerivedContentAt(hash: Hash, decode: Decode, events: seq<Event>, k: nat)
    requires FixedSize(hash) && k < |events|
    ensures PaddedAll(Contents(DerivedDigests(hash, decode, events)))[k] == Derived(hash, decode, events[k])
  {
    ContentAt(hash, decode, events, k);
    hide DerivedDigests, EventPreimage;
    assert UNHASHABLE == seq<Byte>(48, _ => 0xff);
  }

  // ---- The bytes of an event ------------------------------------------------------------------------

  /**
   * The V1 bytes: the type in four little-endian bytes, a colon, the name, a colon, the payload.
   * A type is cut to a natural number and taken modulo 2^32.
   */
  lemma V1BytesExactly(e: Event, t: nat)
    requires IsHex(e.payload) && t as real <= e.eventType < t as real + 1.0
    ensures var b, name, payload := V1Preimage(e), Utf8.Encode(e.name), HexToBytes(e.payload);
      && |b| == 6 + |name| + |payload|
      && FromLittleEndian(b[..4]) == t % 0x1_0000_0000
      && b[4] == ':' as int && b[5..5 + |name|] == name
      && b[5 + |name|] == ':' as int && b[6 + |name|..] == payload
  {
    hide ToUint32;
    var n := t % 0x1_0000_0000;
    CutToNatural(e.eventType, t);
    FourDigits(n);
    var name, payload, head := Utf8.Encode(e.name), HexToBytes(e.payload), LittleEndian32(n) + [COLON];
    assert V1Preimage(e) == head + name + [COLON] + payload;
    assert head[..4] == LittleEndian32(n) && head[4] == COLON;
    hide LittleEndian32, FromLittleEndian;
    Split(head, name, [COLON], payload);
    assert V1Preimage(e)[..4] == head[..4];
  }

  lemma CutToNatural(x: real, t: nat)
    requires t as real <= x < t as real + 1.0
    ensures ToUint32(x) == t % 0x1_0000_0000
  {
    assert x.Floor == t;
  }

  /** The number four bytes spell, least significant first. */
  function FromLittleEndian(b: Bytes): int
    requires |b| == 4
  {
    b[0] as int + 0x100 * (b[1] as int) + 0x1_0000 * (b[2] as int) + 0x100_0000 * (b[3] as int)
  }

  lemma FourDigits(n: nat)
    requires n < 0x1_0000_0000
    ensures FromLittleEndian(LittleEndian32(n)) == n
  {
    assert n / 0x1_0000 == n / 0x100 / 0x100 && n / 0x100_0000 == n / 0x1_0000 / 0x100;
  }

  lemma Split(a: Bytes, b: Bytes, c: Bytes, d: Bytes)
    ensures var s := a + b + c + d;
      && |s| == |a| + |b| + |c| + |d| && s[..|a|] == a && s[|a|..|a| + |b|] == b
      && s[|a| + |b|..|a| + |b| + |c|] == c && s[|a| + |b| + |c|..] == d
      && (forall i | 0 <= i < |a| :: s[i] == a[i]) && (|c| == 1 ==> s[|a| + |b|] == c[0])
  {}

  /**
   * What is hashed for an entry: the published preimage, if it digests to the entry's digest and names
   * its event, payload and, where it states one, its type; without one, the V1 bytes of an entry with a
   * natural type and clean hex; otherwise nothing.
   */
  lemma HashedExactly(hash: Hash, decode: Decode, e: Event)
    ensures !IsHex(e.payload) ==> EventPreimage(hash, decode, e).None?
    ensures IsHex(e.payload) && e.preimage.None? ==>
      EventPreimage(hash, decode, e) == if e.eventType >= 0.0 then Some(V1Preimage(e)) else None
    ensures IsHex(e.payload) && e.preimage.Some? ==>
      (EventPreimage(hash, decode, e).Some? <==>
        && IsHex(e.preimage.value) && e.preimage.value != ""
        && e.digest == BytesToHex(hash(HexToBytes(e.preimage.value)))
        && decode(HexToBytes(e.preimage.value)).Some?
        && var fields := decode(HexToBytes(e.preimage.value)).value;
          && fields.name == Some(e.name) && fields.kind in [TypeAbsent, TypeNumber(e.eventType)]
          && fields.payload == Some(if "0x" <= e.payload then e.payload[2..] else e.payload))
    ensures IsHex(e.payload) && e.preimage.Some? && EventPreimage(hash, decode, e).Some? ==>
      EventPreimage(hash, decode, e).value == HexToBytes(e.preimage.value)
  {}

  // ---- The payload of a named event ----------------------------------------------------------------------

  /** The entry's digest is empty, or is that of the bytes hashed for it. */
  predicate Commits(hash: Hash, decode: Decode, e: Event) {
    var bytes := EventPreimage(hash, decode, e);
    bytes.Some? && e.digest in ["", BytesToHex(hash(bytes.value))]
  }

  /** No entry of the name is no payload; two are refused, whatever they say. */
  lemma AbsentOrDuplicated(hash: Hash, decode: Decode, log: seq<Event>, name: string)
    ensures (forall j | 0 <= j < |log| :: log[j].name != name) ==>
      SingleEventPayload(hash, decode, log, name) == Ok(None)
    ensures (exists i, j | 0 <= i < j < |log| :: log[i].name == name && log[j].name == name) ==>
      SingleEventPayload(hash, decode, log, name) == Err(Duplicated)
  {
    hide Named, DigestIsSelfConsistent;
    if i, j :| 0 <= i < j < |log| && log[i].name == name && log[j].name == name {
      NamedTwice(log, name, i, j);
    } else if forall j | 0 <= j < |log| :: log[j].name != name {
      NamedNever(log, name);
    }
  }

  /** The one entry of the name gives its payload exactly when it is in register 3 and its digest commits to it. */
  lemma PayloadExactly(hash: Hash, decode: Decode, log: seq<Event>, name: string, i: nat)
    requires i < |log| && forall j | 0 <= j < |log| :: log[j].name == name <==> j == i
    ensures SingleEventPayload(hash, decode, log, name) ==
      if log[i].imr != 3 then Err(NotInRtmr3)
      else if !Commits(hash, decode, log[i]) then Err(NotCommitted)
      else Ok(Some(log[i].payload))
  {
    NamedOnce(log, i, name);
    hide Named, EventPreimage;
  }
}
