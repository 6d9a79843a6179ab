/**
 * Replay of a TDX event log. SHA-384 is an arbitrary function with 48-byte
 * results, so a result says "the logs agree, or one of the byte strings hashed
 * during these two replays breaks the hash".
 */
module EventLog {
  import opened Wrappers
  import opened Text
  import Utf8

  type Bytes = seq<Byte>
  type Hash = Bytes -> Bytes

  const DIGEST_BYTES := 48

  ghost predicate FixedSize(hash: Hash) { forall x :: |hash(x)| == DIGEST_BYTES }

  function Repeat(b: Byte, n: nat): (bytes: Bytes)
    ensures |bytes| == n && forall i | 0 <= i < n :: bytes[i] == b
  {
    seq(n, _ => b)
  }

  // ---- Replaying one register --------------------------------------------------------

  /** right_zero_pad_48; longer contents stay as they are. */
  function Pad(content: Bytes): Bytes {
    if |content| < DIGEST_BYTES then content + Repeat(0, DIGEST_BYTES - |content|) else content
  }

  /** rtmr = SHA384(rtmr_prev || right_zero_pad_48(digest)), from 48 zero bytes. */
  function RegisterAfter(hash: Hash, contents: seq<Bytes>): Bytes {
    if contents == [] then Repeat(0, DIGEST_BYTES)
    else hash(RegisterAfter(hash, contents[..|contents| - 1]) + Pad(contents[|contents| - 1]))
  }

  /** Every byte string hashed while replaying. */
  function ChainInputs(hash: Hash, contents: seq<Bytes>): seq<Bytes> {
    if contents == [] then []
    else
      var before, last := contents[..|contents| - 1], contents[|contents| - 1];
      ChainInputs(hash, before) + [RegisterAfter(hash, before) + Pad(last)]
  }

  function Contents(digests: seq<string>): (contents: seq<Bytes>)
    requires forall i | 0 <= i < |digests| :: IsHex(digests[i])
    ensures |contents| == |digests|
    ensures forall i | 0 <= i < |digests| :: contents[i] == HexToBytes(digests[i])
  {
    seq(|digests|, i requires 0 <= i < |digests| && IsHex(digests[i]) => HexToBytes(digests[i]))
  }

  function Replayed(hash: Hash, digests: seq<string>): string
    requires forall i | 0 <= i < |digests| :: IsHex(digests[i])
  {
    BytesToHex(RegisterAfter(hash, Contents(digests)))
  }

  method PadTo48(content: Bytes) returns (padded: Bytes)
    ensures padded == Pad(content)
  {
    if |content| >= DIGEST_BYTES {
      return content;
    }
    var buffer := new Byte[DIGEST_BYTES](_ => 0);
    forall k | 0 <= k < |content| {
      buffer[k] := content[k];
    }
    padded := buffer[..];
    assert padded == content + Repeat(0, DIGEST_BYTES - |content|);
  }

  method ReplayRegister(hash: Hash, digests: seq<string>) returns (replayed: string)
    requires forall i | 0 <= i < |digests| :: IsHex(digests[i])
    ensures replayed == Replayed(hash, digests)
  {
    var register := Repeat(0, DIGEST_BYTES);
    ghost var contents := Contents(digests);
    for i := 0 to |digests|
      invariant register == RegisterAfter(hash, contents[..i])
    {
      var content := PadTo48(HexToBytes(digests[i]));
      register := hash(register + content);
      assert contents[..i + 1][..i] == contents[..i];
    }
    assert contents[..|digests|] == contents;
    replayed := BytesToHex(register);
  }

  ghost predicate CollisionBetween(hash: Hash, xs: seq<Bytes>, ys: seq<Bytes>) {
    exists x, y | x in xs && y in ys :: x != y && hash(x) == hash(y)
  }

  ghost predicate Hits(hash: Hash, xs: seq<Bytes>, target: Bytes) {
    exists x | x in xs :: hash(x) == target
  }

  function PaddedAll(contents: seq<Bytes>): (padded: seq<Bytes>)
    ensures |padded| == |contents|
    ensures forall i | 0 <= i < |contents| :: padded[i] == Pad(contents[i])
  {
    seq(|contents|, i requires 0 <= i < |contents| => Pad(contents[i]))
  }

  lemma BreaksGrow(hash: Hash, xs: seq<Bytes>, ys: seq<Bytes>, x: Bytes, y: Bytes, target: Bytes)
    ensures CollisionBetween(hash, xs, ys) ==> CollisionBetween(hash, xs + [x], ys + [y])
    ensures Hits(hash, xs + ys, target) ==> Hits(hash, xs + [x] + (ys + [y]), target)
    ensures hash(x) == hash(y) && x != y ==> CollisionBetween(hash, xs + [x], ys + [y])
  {
    assert x in xs + [x] && y in ys + [y];
    if CollisionBetween(hash, xs, ys) {
      var x', y' :| x' in xs && y' in ys && x' != y' && hash(x') == hash(y');
      assert x' in xs + [x] && y' in ys + [y];
    }
    if Hits(hash, xs + ys, target) {
      var z :| z in xs + ys && hash(z) == target;
      assert z in xs + [x] + (ys + [y]);
    }
  }

  lemma SplitAt48(r: Bytes, c: Bytes, r': Bytes, c': Bytes)
    requires |r| == |r'| == DIGEST_BYTES && r + c == r' + c'
    ensures r == r' && c == c'
  {
    assert r == (r + c)[..DIGEST_BYTES] && c == (r + c)[DIGEST_BYTES..];
    assert r' == (r' + c')[..DIGEST_BYTES] && c' == (r' + c')[DIGEST_BYTES..];
  }

  /** Equal registers: the same padded digests in the same number, or a hash break in the replay itself. */
  lemma {:induction false} ReplayBinds(hash: Hash, a: seq<Bytes>, b: seq<Bytes>)
    requires FixedSize(hash) && RegisterAfter(hash, a) == RegisterAfter(hash, b)
    ensures
      || PaddedAll(a) == PaddedAll(b)
      || CollisionBetween(hash, ChainInputs(hash, a), ChainInputs(hash, b))
      || Hits(hash, ChainInputs(hash, a) + ChainInputs(hash, b), Repeat(0, DIGEST_BYTES))
  {
    hide *;
    if a == [] && b == [] {
      assert PaddedAll(a) == PaddedAll(b);
    } else if a == [] || b == [] {
      OnlyOneEmpty(hash, a, b);
    } else {
      LastStep(hash, a);
      LastStep(hash, b);
      var a', b', p, q := a[..|a| - 1], b[..|b| - 1], Pad(a[|a| - 1]), Pad(b[|b| - 1]);
      var r, s := RegisterAfter(hash, a'), RegisterAfter(hash, b');
      BreaksGrow(hash, ChainInputs(hash, a'), ChainInputs(hash, b'), r + p, s + q, Repeat(0, DIGEST_BYTES));
      if r + p == s + q {
        SplitAt48(r, p, s, q);
        ReplayBinds(hash, a', b');
        assert PaddedAll(a) == PaddedAll(a') + [p];
        assert PaddedAll(b) == PaddedAll(b') + [q];
      }
    }
  }

  lemma LastStep(hash: Hash, a: seq<Bytes>)
    requires FixedSize(hash) && a != []
    ensures var a', p := a[..|a| - 1], Pad(a[|a| - 1]);
      && RegisterAfter(hash, a) == hash(RegisterAfter(hash, a') + p)
      && ChainInputs(hash, a) == ChainInputs(hash, a') + [RegisterAfter(hash, a') + p]
      && |RegisterAfter(hash, a')| == DIGEST_BYTES
  {}

  lemma OnlyOneEmpty(hash: Hash, a: seq<Bytes>, b: seq<Bytes>)
    requires RegisterAfter(hash, a) == RegisterAfter(hash, b)
    requires (a == []) != (b == [])
    ensures Hits(hash, ChainInputs(hash, a) + ChainInputs(hash, b), Repeat(0, DIGEST_BYTES))
  {
    var c := if a == [] then b else a;
    var input := RegisterAfter(hash, c[..|c| - 1]) + Pad(c[|c| - 1]);
    assert input in ChainInputs(hash, c);
    assert input in ChainInputs(hash, a) + ChainInputs(hash, b);
  }

  // ---- Events --------------------------------------------------------------------------

  /** One parsed entry: parseEventLog bounds imr and lowercases digest, payload and preimage. */
  datatype Event = Event(
    imr: nat, eventType: real, digest: string, name: string, payload: string, preimage: Option<string>)

  /** What JSON.parse finds in a V2 preimage; None where it is no JSON object. */
  datatype V2Type = TypeAbsent | TypeNumber(value: real) | TypeOther
  datatype V2Fields = V2Fields(name: Option<string>, payload: Option<string>, kind: V2Type)
  type Decode = Bytes -> Option<V2Fields>

  /** ECMAScript ToUint32: truncate toward zero, then modulo 2^32. */
  function ToUint32(x: real): (n: int)
    ensures 0 <= n < 0x1_0000_0000
  {
    (if x >= 0.0 then x.Floor else -(-x).Floor) % 0x1_0000_0000
  }

  function LittleEndian32(n: int): (bytes: Bytes)
    requires 0 <= n < 0x1_0000_0000
    ensures |bytes| == 4
  {
    [n % 256, n / 0x100 % 256, n / 0x1_0000 % 256, n / 0x100_0000]
  }

  const COLON: Byte := 0x3a

  /** u32_le(event_type) || ":" || utf8(event) || ":" || bytes(event_payload) */
  function V1Preimage(e: Event): Bytes
    requires IsHex(e.payload)
  {
    LittleEndian32(ToUint32(e.eventType)) + [COLON] + Utf8.Encode(e.name) + [COLON] + HexToBytes(e.payload)
  }

  /** The bytes whose digest must be the event's, or None where the entry cannot be hashed. */
  function EventPreimage(hash: Hash, decode: Decode, e: Event): Option<Bytes> {
    if !IsHex(e.payload) then None
    else if e.preimage.Some? then
      if V2SelfConsistent(hash, decode, e) then Some(HexToBytes(e.preimage.value)) else None
    else if e.eventType < 0.0 then None
    else Some(V1Preimage(e))
  }

  predicate V2SelfConsistent(hash: Hash, decode: Decode, e: Event) {
    && e.preimage.Some? && IsHex(e.preimage.value) && e.preimage.value != ""
    && var bytes := HexToBytes(e.preimage.value);
    && BytesToHex(hash(bytes)) == e.digest
    && decode(bytes).Some?
    && var fields := decode(bytes).value;
    && fields.name == Some(e.name)
    && fields.payload == Some(Strip(e.payload))
    && (fields.kind == TypeAbsent || fields.kind == TypeNumber(e.eventType))
  }

  function Rtmr3EventDigest(hash: Hash, decode: Decode, e: Event): (digest: Option<string>)
    ensures digest.Some? <==> EventPreimage(hash, decode, e).Some?
    ensures digest.Some? ==> digest.value == BytesToHex(hash(EventPreimage(hash, decode, e).value))
  {
    if !IsHex(e.payload) then None
    else if e.preimage.Some? then
      if V2SelfConsistent(hash, decode, e) then Some(e.digest) else None
    else if e.eventType < 0.0 then None
    else Some(BytesToHex(hash(V1Preimage(e))))
  }

  function OfRegister(events: seq<Event>, imr: nat): (r: seq<Event>)
    ensures forall e :: e in r <==> e in events && e.imr == imr
  {
    if events == [] then []
    else (if events[0].imr == imr then [events[0]] else []) + OfRegister(events[1..], imr)
  }

  const UNHASHABLE: Bytes := Repeat(0xff, DIGEST_BYTES)

  /** The digests register 3 is replayed from: derived from each event's own fields. */
  function DerivedDigests(hash: Hash, decode: Decode, events: seq<Event>): (digests: seq<string>)
    ensures |digests| == |events| && forall i | 0 <= i < |digests| :: IsHex(digests[i])
  {
    if events == [] then []
    else
      var digest := Rtmr3EventDigest(hash, decode, events[0]);
      [if digest.Some? then digest.value else BytesToHex(UNHASHABLE)] + DerivedDigests(hash, decode, events[1..])
  }

  function SuppliedDigests(events: seq<Event>): (digests: seq<string>)
    ensures |digests| == |events| && forall i | 0 <= i < |digests| :: digests[i] == events[i].digest
  {
    seq(|events|, i requires 0 <= i < |events| => events[i].digest)
  }

  /** replayRtmrs: registers 0 to 2 from the supplied digests, register 3 from the derived ones. */
  function ReplayRtmrs(hash: Hash, decode: Decode, events: seq<Event>): (registers: seq<string>)
    requires forall e | e in events :: IsHex(e.digest)
    ensures |registers| == 4
  {
    [Replayed(hash, SuppliedDigests(OfRegister(events, 0))),
     Replayed(hash, SuppliedDigests(OfRegister(events, 1))),
     Replayed(hash, SuppliedDigests(OfRegister(events, 2))),
     Replayed(hash, DerivedDigests(hash, decode, OfRegister(events, 3)))]
  }

  predicate DigestIsSelfConsistent(hash: Hash, decode: Decode, e: Event) {
    var derived := Rtmr3EventDigest(hash, decode, e);
    derived.Some? && (e.digest == "" || derived.value == e.digest)
  }

  datatype LogError = Duplicated | NotInRtmr3 | NotCommitted

  function Named(events: seq<Event>, name: string): (r: seq<Event>)
    ensures forall e :: e in r <==> e in events && e.name == name
  {
    if events == [] then []
    else (if events[0].name == name then [events[0]] else []) + Named(events[1..], name)
  }

  function SingleEventPayload(hash: Hash, decode: Decode, events: seq<Event>, name: string)
    : (r: Result<Option<string>, LogError>)
  {
    var matches := Named(events, name);
    if |matches| == 0 then Ok(None)
    else if |matches| > 1 then Err(Duplicated)
    else if matches[0].imr != 3 then Err(NotInRtmr3)
    else if !DigestIsSelfConsistent(hash, decode, matches[0]) then Err(NotCommitted)
    else Ok(Some(matches[0].payload))
  }

  // ---- What the replay commits to --------------------------------------------------------

  /** Every byte string hashed while replaying register 3 of a log. */
  function EventInputs(hash: Hash, decode: Decode, events: seq<Event>): seq<Bytes> {
    if events == [] then []
    else
      var preimage := EventPreimage(hash, decode, events[0]);
      (if preimage.Some? then [preimage.value] else []) + EventInputs(hash, decode, events[1..])
  }

  function Rtmr3Inputs(hash: Hash, decode: Decode, log: seq<Event>): seq<Bytes> {
    var events := OfRegister(log, 3);
    ChainInputs(hash, Contents(DerivedDigests(hash, decode, events))) + EventInputs(hash, decode, events)
  }

  /** A hash break made of byte strings these two replays hash. */
  ghost predicate Broken(hash: Hash, decode: Decode, log1: seq<Event>, log2: seq<Event>) {
    var xs, ys := Rtmr3Inputs(hash, decode, log1), Rtmr3Inputs(hash, decode, log2);
    || CollisionBetween(hash, xs, ys)
    || Hits(hash, xs + ys, Repeat(0, DIGEST_BYTES))
    || Hits(hash, xs + ys, UNHASHABLE)
  }

  /** Some measured bytes are a V1 serialization in one log and a V2 preimage in the other. */
  ghost predicate TwoReadings(hash: Hash, decode: Decode, log1: seq<Event>, log2: seq<Event>) {
    exists e, f | e in OfRegister(log1, 3) && f in OfRegister(log2, 3) ::
      && e.preimage.Some? != f.preimage.Some?
      && EventPreimage(hash, decode, e).Some?
      && EventPreimage(hash, decode, e) == EventPreimage(hash, decode, f)
  }

  /** The part of a longer name that follows name and a colon. */
  function NameTail(longer: string, name: string): string
    requires name + ":" <= longer
  {
    longer[|name| + 1..]
  }

  /** The payload an event shows when the tail of its name is moved into it. */
  function TailPayload(f: Event, name: string): string
    requires IsHex(f.payload) && name + ":" <= f.name
  {
    BytesToHex(Utf8.Encode(NameTail(f.name, name)) + [COLON] + HexToBytes(f.payload))
  }

  /** The payload starts with text and a colon, which can be moved into the name. */
  ghost predicate StartsWithText(payload: string)
    requires IsHex(payload)
  {
    exists text: string, rest: Bytes :: HexToBytes(payload) == Utf8.Encode(text) + [COLON] + rest
  }

  predicate IsV1(e: Event) { e.imr == 3 && e.preimage.None? && IsHex(e.payload) && e.eventType >= 0.0 }

  /** The serializer's missing escape can be used to show another payload for name. */
  ghost predicate Ambiguous(log: seq<Event>, name: string) {
    exists e, f | e in log && f in log ::
      && IsV1(e) && e.name == name && StartsWithText(e.payload)
      && IsV1(f) && name + ":" <= f.name && TailPayload(f, name) != e.payload
  }

  lemma {:induction false} DerivedDigestAt(hash: Hash, decode: Decode, events: seq<Event>, i: nat)
    requires i < |events|
    ensures var preimage := EventPreimage(hash, decode, events[i]);
      && DerivedDigests(hash, decode, events)[i] ==
         (if preimage.Some? then BytesToHex(hash(preimage.value)) else BytesToHex(UNHASHABLE))
      && (preimage.Some? ==> preimage.value in EventInputs(hash, decode, events))
  {
    if i > 0 {
      DerivedDigestAt(hash, decode, events[1..], i - 1);
    }
  }

  lemma ContentAt(hash: Hash, decode: Decode, events: seq<Event>, i: nat)
    requires FixedSize(hash) && i < |events|
    ensures var preimage := EventPreimage(hash, decode, events[i]);
      PaddedAll(Contents(DerivedDigests(hash, decode, events)))[i] ==
      if preimage.Some? then hash(preimage.value) else UNHASHABLE
  {
    DerivedDigestAt(hash, decode, events, i);
    BytesOfHexOfBytes(UNHASHABLE);
    var preimage := EventPreimage(hash, decode, events[i]);
    if preimage.Some? {
      BytesOfHexOfBytes(hash(preimage.value));
    }
  }

  lemma AfterType(e: Event)
    requires IsHex(e.payload)
    ensures |V1Preimage(e)| >= 5
    ensures V1Preimage(e)[5..] == Utf8.Encode(e.name) + [COLON] + HexToBytes(e.payload)
  {}

  /** The bytes up to the first colon are the name of a colon-free event. */
  lemma FirstColon(n: Bytes, p: Bytes, m: Bytes, q: Bytes)
    requires COLON !in m && n + [COLON] + p == m + [COLON] + q
    ensures (n == m && p == q) || m + [COLON] <= n
  {
    var s, t := n + [COLON] + p, m + [COLON] + q;
    assert s[|n|] == COLON && t[|m|] == COLON;
    assert forall i | 0 <= i < |m| :: t[i] == m[i];
    assert |n| >= |m|;
    assert forall i | 0 <= i < |n| :: s[i] == n[i];
    if |n| == |m| {
      assert n == s[..|n|] && m == t[..|m|] && p == s[|n| + 1..] && q == t[|m| + 1..];
    } else {
      assert m + [COLON] == t[..|m| + 1] == n[..|m| + 1];
    }
  }

  lemma EncodeColon(s: string)
    ensures Utf8.Encode(s + ":") == Utf8.Encode(s) + [COLON]
  {
    Utf8.EncodeConcat(s, ":");
    assert ":"[1..] == "";
    assert Utf8.Encode(":") == [COLON];
  }

  /** V1 events hashed from the same bytes agree, or one name continues the other's after a colon. */
  lemma SameV1Bytes(e: Event, f: Event)
    requires IsHex(e.payload) && IsHex(f.payload) && ':' !in f.name && V1Preimage(e) == V1Preimage(f)
    ensures (e.name == f.name && e.payload == f.payload)
      || (f.name + ":" <= e.name && f.payload == TailPayload(e, f.name))
  {
    var n, p, m, q := Utf8.Encode(e.name), HexToBytes(e.payload), Utf8.Encode(f.name), HexToBytes(f.payload);
    AfterType(e);
    AfterType(f);
    Utf8.AsciiByteOccurs(f.name, ':');
    FirstColon(n, p, m, q);
    HexOfBytesOfHex(e.payload);
    HexOfBytesOfHex(f.payload);
    if n == m && p == q {
      Utf8.EncodeInjective(e.name, f.name);
    } else {
      EncodeColon(f.name);
      Utf8.EncodePrefix(f.name + ":", e.name);
      LongerNameBytes(e, f, n, p, m, q);
    }
  }

  lemma LongerNameBytes(e: Event, f: Event, n: Bytes, p: Bytes, m: Bytes, q: Bytes)
    requires f.name + ":" <= e.name && n == Utf8.Encode(e.name) && m == Utf8.Encode(f.name)
    requires n + [COLON] + p == m + [COLON] + q
    ensures q == Utf8.Encode(NameTail(e.name, f.name)) + [COLON] + p
  {
    var tail := NameTail(e.name, f.name);
    assert e.name == f.name + ":" + tail;
    EncodeColon(f.name);
    Utf8.EncodeConcat(f.name + ":", tail);
    assert n == m + [COLON] + Utf8.Encode(tail);
    assert q == (m + [COLON] + q)[|m| + 1..];
    assert (n + [COLON] + p)[|m| + 1..] == Utf8.Encode(tail) + [COLON] + p;
  }

  /** V2 events hashed from the same bytes agree. */
  lemma SameV2Bytes(hash: Hash, decode: Decode, e: Event, f: Event)
    requires EventPreimage(hash, decode, e).Some? && EventPreimage(hash, decode, e) == EventPreimage(hash, decode, f)
    requires e.preimage.Some? && f.preimage.Some?
    ensures e.name == f.name && e.payload == f.payload
  {
    assert |e.payload| > 1 ==> e.payload[1] in e.payload;
    assert |f.payload| > 1 ==> f.payload[1] in f.payload;
  }

  /** The one event a payload is read from. */
  lemma PayloadSource(hash: Hash, decode: Decode, log: seq<Event>, name: string, p: string) returns (i: nat)
    requires SingleEventPayload(hash, decode, log, name) == Ok(Some(p))
    ensures i < |OfRegister(log, 3)|
    ensures var e := OfRegister(log, 3)[i];
      && e.name == name && e.payload == p && EventPreimage(hash, decode, e).Some?
      && forall e' | e' in log && e'.name == name :: e' == e
  {
    hide EventPreimage;
    var matches := Named(log, name);
    assert matches[0] in matches;
    assert matches[0] in OfRegister(log, 3);
    i :| 0 <= i < |OfRegister(log, 3)| && OfRegister(log, 3)[i] == matches[0];
    forall e' | e' in log && e'.name == name ensures e' == matches[0] {
      assert e' in matches;
    }
  }

  lemma SameRegisterSameContents(hash: Hash, decode: Decode, log1: seq<Event>, log2: seq<Event>)
    requires FixedSize(hash)
    requires Replayed(hash, DerivedDigests(hash, decode, OfRegister(log1, 3)))
          == Replayed(hash, DerivedDigests(hash, decode, OfRegister(log2, 3)))
    ensures Broken(hash, decode, log1, log2)
      || PaddedAll(Contents(DerivedDigests(hash, decode, OfRegister(log1, 3))))
      == PaddedAll(Contents(DerivedDigests(hash, decode, OfRegister(log2, 3))))
  {
    hide RegisterAfter;
    hide ChainInputs;
    hide DerivedDigests;
    hide Broken;
    var a := Contents(DerivedDigests(hash, decode, OfRegister(log1, 3)));
    var b := Contents(DerivedDigests(hash, decode, OfRegister(log2, 3)));
    BytesOfHexOfBytes(RegisterAfter(hash, a));
    BytesOfHexOfBytes(RegisterAfter(hash, b));
    ReplayBinds(hash, a, b);
    if PaddedAll(a) != PaddedAll(b) {
      InputsGrow(hash, decode, log1, log2, a, b);
    }
  }

  /**
   * If two logs replay to the same RTMR3 and both yield a payload for a name, the
   * payloads are equal, unless ONE given log is ambiguous for the name, the hash is
   * broken by what was hashed, or some measured bytes read as both event versions.
   */
  lemma PayloadIsMeasured(hash: Hash, decode: Decode, log1: seq<Event>, log2: seq<Event>, name: string, p1: string,
                          p2: string)
    requires FixedSize(hash) && ':' !in name && !Ambiguous(log1, name)
    requires (forall e | e in log1 :: IsHex(e.digest)) && forall e | e in log2 :: IsHex(e.digest)
    requires ReplayRtmrs(hash, decode, log1)[3] == ReplayRtmrs(hash, decode, log2)[3]
    requires SingleEventPayload(hash, decode, log1, name) == Ok(Some(p1))
    requires SingleEventPayload(hash, decode, log2, name) == Ok(Some(p2))
    ensures p1 == p2 || Broken(hash, decode, log1, log2) || TwoReadings(hash, decode, log1, log2)
  {
    assert Replayed(hash, DerivedDigests(hash, decode, OfRegister(log1, 3)))
        == Replayed(hash, DerivedDigests(hash, decode, OfRegister(log2, 3))) by { hide Replayed, DerivedDigests; }
    hide ReplayRtmrs, Replayed;
    var i := PayloadSource(hash, decode, log1, name, p1);
    var j := PayloadSource(hash, decode, log2, name, p2);
    SameRegisterSameContents(hash, decode, log1, log2);
    hide *;
    if !Broken(hash, decode, log1, log2) && !TwoReadings(hash, decode, log1, log2) {
      SameBytesAt(hash, decode, log1, log2, i);
      SameBytesAt(hash, decode, log1, log2, j);
      var es, fs := OfRegister(log1, 3), OfRegister(log2, 3);
      assert es[j] in es && es[j] in log1 && fs[i] in fs && fs[i] in log2;
      PayloadsAgree(hash, decode, log1, es[i], es[j], fs[i], fs[j]);
    }
  }

  lemma SameBytesAt(hash: Hash, decode: Decode, log1: seq<Event>, log2: seq<Event>, i: nat)
    requires FixedSize(hash) && !Broken(hash, decode, log1, log2) && !TwoReadings(hash, decode, log1, log2)
    requires PaddedAll(Contents(DerivedDigests(hash, decode, OfRegister(log1, 3))))
          == PaddedAll(Contents(DerivedDigests(hash, decode, OfRegister(log2, 3))))
    requires i < |OfRegister(log1, 3)| || i < |OfRegister(log2, 3)|
    ensures i < |OfRegister(log1, 3)| && i < |OfRegister(log2, 3)|
    ensures var e, f := OfRegister(log1, 3)[i], OfRegister(log2, 3)[i];
      && EventPreimage(hash, decode, e) == EventPreimage(hash, decode, f)
      && (EventPreimage(hash, decode, e).Some? ==> e.preimage.Some? == f.preimage.Some?)
  {
    hide *;
    assert |PaddedAll(Contents(DerivedDigests(hash, decode, OfRegister(log1, 3))))| == |OfRegister(log1, 3)|;
    assert |PaddedAll(Contents(DerivedDigests(hash, decode, OfRegister(log2, 3))))| == |OfRegister(log2, 3)|;
    DigestCommits(hash, decode, log1, log2, i);
    var e, f := OfRegister(log1, 3)[i], OfRegister(log2, 3)[i];
    assert e in OfRegister(log1, 3) && f in OfRegister(log2, 3);
    if EventPreimage(hash, decode, e).Some? {
      MixedIsTwoReadings(hash, decode, log1, log2, e, f);
    }
  }

  /** e and f carry the name in their logs; e', f' are what the other log shows in their place. */
  lemma PayloadsAgree(hash: Hash, decode: Decode, log1: seq<Event>, e: Event, f': Event, e': Event, f: Event)
    requires ':' !in f.name && e.name == f.name && !Ambiguous(log1, f.name)
    requires EventPreimage(hash, decode, e).Some? && EventPreimage(hash, decode, e) == EventPreimage(hash, decode, e')
    requires EventPreimage(hash, decode, f).Some? && EventPreimage(hash, decode, f) == EventPreimage(hash, decode, f')
    requires e.preimage.Some? == e'.preimage.Some? && f.preimage.Some? == f'.preimage.Some?
    requires e in log1 && f' in log1 && e.imr == 3 && f'.imr == 3
    requires e'.name == f.name ==> e' == f
    requires f'.name == e.name ==> f' == e
    ensures e.payload == f.payload
  {
    hide V1Preimage;
    hide HexToBytes;
    hide TailPayload;
    if e.preimage.Some? {
      SameV2Bytes(hash, decode, e, e');
    } else if f.preimage.Some? {
      SameV2Bytes(hash, decode, f, f');
    } else {
      SameV1Bytes(e', e);
      SameV1Bytes(f', f);
      if e.name + ":" <= e'.name {
        TailStartsWithText(e', e.name);
      }
      assert IsV1(e) && IsV1(f');
    }
  }

  lemma TailStartsWithText(e: Event, name: string)
    requires IsHex(e.payload) && name + ":" <= e.name
    ensures IsHex(TailPayload(e, name)) && StartsWithText(TailPayload(e, name))
  {
    BytesOfHexOfBytes(Utf8.Encode(NameTail(e.name, name)) + [COLON] + HexToBytes(e.payload));
  }

  lemma MixedIsTwoReadings(hash: Hash, decode: Decode, log1: seq<Event>, log2: seq<Event>, e: Event, f: Event)
    requires e in OfRegister(log1, 3) && f in OfRegister(log2, 3)
    requires EventPreimage(hash, decode, e).Some? && EventPreimage(hash, decode, e) == EventPreimage(hash, decode, f)
    ensures e.preimage.Some? != f.preimage.Some? ==> TwoReadings(hash, decode, log1, log2)
  {
    hide EventPreimage;
  }

  lemma InputsGrow(hash: Hash, decode: Decode, log1: seq<Event>, log2: seq<Event>, a: seq<Bytes>, b: seq<Bytes>)
    requires a == Contents(DerivedDigests(hash, decode, OfRegister(log1, 3)))
    requires b == Contents(DerivedDigests(hash, decode, OfRegister(log2, 3)))
    requires CollisionBetween(hash, ChainInputs(hash, a), ChainInputs(hash, b))
          || Hits(hash, ChainInputs(hash, a) + ChainInputs(hash, b), Repeat(0, DIGEST_BYTES))
    ensures Broken(hash, decode, log1, log2)
  {
    var xs, ys := Rtmr3Inputs(hash, decode, log1), Rtmr3Inputs(hash, decode, log2);
    assert forall x | x in ChainInputs(hash, a) :: x in xs;
    assert forall y | y in ChainInputs(hash, b) :: y in ys;
  }

  /** At every position two equal replays hashed the same event bytes, or the hash is broken. */
  lemma DigestCommits(hash: Hash, decode: Decode, log1: seq<Event>, log2: seq<Event>, i: nat)
    requires FixedSize(hash) && i < |OfRegister(log1, 3)| && i < |OfRegister(log2, 3)|
    requires PaddedAll(Contents(DerivedDigests(hash, decode, OfRegister(log1, 3))))
          == PaddedAll(Contents(DerivedDigests(hash, decode, OfRegister(log2, 3))))
    ensures Broken(hash, decode, log1, log2)
      || EventPreimage(hash, decode, OfRegister(log1, 3)[i]) == EventPreimage(hash, decode, OfRegister(log2, 3)[i])
  {
    var es, fs := OfRegister(log1, 3), OfRegister(log2, 3);
    ContentAt(hash, decode, es, i);
    ContentAt(hash, decode, fs, i);
    DerivedDigestAt(hash, decode, es, i);
    DerivedDigestAt(hash, decode, fs, i);
    var x, y := EventPreimage(hash, decode, es[i]), EventPreimage(hash, decode, fs[i]);
    var xs, ys := Rtmr3Inputs(hash, decode, log1), Rtmr3Inputs(hash, decode, log2);
    assert x.Some? ==> x.value in xs && x.value in xs + ys;
    assert y.Some? ==> y.value in ys && y.value in xs + ys;
  }

  // ---- Where a missing escape shows -----------------------------------------------------------

  /** The log entry by entry, hashed from the same bytes. */
  ghost predicate SameMeasurements(hash: Hash, decode: Decode, log1: seq<Event>, log2: seq<Event>) {
    && |log1| == |log2|
    && forall i | 0 <= i < |log1| :: SameMeasurement(hash, decode, log1[i], log2[i])
  }

  ghost predicate SameMeasurement(hash: Hash, decode: Decode, e: Event, f: Event) {
    && e.imr == f.imr && (e.imr != 3 ==> e.digest == f.digest)
    && EventPreimage(hash, decode, e) == EventPreimage(hash, decode, f)
  }

  lemma {:induction false} SameMeasurementsPerRegister(hash: Hash, decode: Decode, log1: seq<Event>,
                                                       log2: seq<Event>, imr: nat)
    requires SameMeasurements(hash, decode, log1, log2)
    ensures SameMeasurements(hash, decode, OfRegister(log1, imr), OfRegister(log2, imr))
  {
    hide EventPreimage;
    if log1 != [] {
      var tail1, tail2 := log1[1..], log2[1..];
      SameMeasurementsPerRegister(hash, decode, tail1, tail2, imr);
      SameMeasurementsCons(hash, decode, log1[0], OfRegister(tail1, imr), log2[0], OfRegister(tail2, imr));
    }
  }

  lemma SameMeasurementsCons(hash: Hash, decode: Decode, e: Event, es: seq<Event>, f: Event, fs: seq<Event>)
    requires SameMeasurements(hash, decode, es, fs) && SameMeasurement(hash, decode, e, f)
    ensures SameMeasurements(hash, decode, [e] + es, [f] + fs) && SameMeasurements(hash, decode, [] + es, [] + fs)
  {
    hide SameMeasurement;
    assert [] + es == es && [] + fs == fs;
  }

  lemma SameMeasurementsReplayAlike(hash: Hash, decode: Decode, log1: seq<Event>, log2: seq<Event>)
    requires SameMeasurements(hash, decode, log1, log2)
    requires forall e | e in log1 :: IsHex(e.digest)
    requires forall e | e in log2 :: IsHex(e.digest)
    ensures ReplayRtmrs(hash, decode, log1) == ReplayRtmrs(hash, decode, log2)
  {
    hide RegisterAfter;
    hide DerivedDigests;
    forall imr: nat ensures SameMeasurements(hash, decode, OfRegister(log1, imr), OfRegister(log2, imr)) {
      SameMeasurementsPerRegister(hash, decode, log1, log2, imr);
    }
    forall imr: nat | imr != 3
      ensures SuppliedDigests(OfRegister(log1, imr)) == SuppliedDigests(OfRegister(log2, imr))
    {
      SuppliedAlike(hash, decode, OfRegister(log1, imr), OfRegister(log2, imr), imr);
    }
    DerivedAlike(hash, decode, OfRegister(log1, 3), OfRegister(log2, 3));
  }

  lemma SuppliedAlike(hash: Hash, decode: Decode, es: seq<Event>, fs: seq<Event>, imr: nat)
    requires SameMeasurements(hash, decode, es, fs) && imr != 3 && forall e | e in es :: e.imr == imr
    ensures SuppliedDigests(es) == SuppliedDigests(fs)
  {
    forall i | 0 <= i < |es| ensures es[i].digest == fs[i].digest {
      assert es[i] in es;
    }
  }

  lemma DerivedAlike(hash: Hash, decode: Decode, es: seq<Event>, fs: seq<Event>)
    requires SameMeasurements(hash, decode, es, fs)
    ensures DerivedDigests(hash, decode, es) == DerivedDigests(hash, decode, fs)
  {
    hide EventPreimage;
    hide DerivedDigests;
    forall i | 0 <= i < |es| ensures DerivedDigests(hash, decode, es)[i] == DerivedDigests(hash, decode, fs)[i] {
      DerivedDigestAt(hash, decode, es, i);
      DerivedDigestAt(hash, decode, fs, i);
    }
  }

  lemma {:induction false} NamedNever(log: seq<Event>, name: string)
    requires forall i | 0 <= i < |log| :: log[i].name != name
    ensures Named(log, name) == []
  {
    if log != [] {
      NamedNever(log[1..], name);
    }
  }

  lemma {:induction false} NamedOnce(log: seq<Event>, j: nat, name: string)
    requires j < |log| && log[j].name == name
    requires forall i | 0 <= i < |log| && i != j :: log[i].name != name
    ensures Named(log, name) == [log[j]]
  {
    if j == 0 {
      NamedNever(log[1..], name);
    } else {
      NamedOnce(log[1..], j - 1, name);
    }
  }

  lemma {:induction false} NamedTwice(log: seq<Event>, name: string, i: nat, j: nat)
    requires i < j < |log| && log[i].name == log[j].name == name
    ensures |Named(log, name)| >= 2
  {
    var tail := log[1..];
    assert tail[j - 1] == log[j] && log[j] in tail;
    assert log[j] in Named(tail, name);
    if i > 0 {
      NamedTwice(tail, name, i - 1, j - 1);
    }
  }

  function Relabelled(e: Event, name: string, payload: string): Event {
    e.(name := name, payload := payload, digest := "")
  }

  /** Moving the name's tail into the payload keeps the hashed bytes. */
  lemma TailMovesIntoPayload(e: Event, name: string)
    requires IsHex(e.payload) && name + ":" <= e.name
    ensures V1Preimage(Relabelled(e, name, TailPayload(e, name))) == V1Preimage(e)
  {
    var tail, p, m := NameTail(e.name, name), HexToBytes(e.payload), Utf8.Encode(name);
    assert e.name == name + ":" + tail;
    EncodeColon(name);
    Utf8.EncodeConcat(name + ":", tail);
    BytesOfHexOfBytes(Utf8.Encode(tail) + [COLON] + p);
    var prefix := LittleEndian32(ToUint32(e.eventType)) + [COLON];
    hide LittleEndian32;
    MovedColon(prefix, m, Utf8.Encode(tail), p);
  }

  lemma MovedColon(prefix: Bytes, name: Bytes, text: Bytes, rest: Bytes)
    ensures prefix + name + [COLON] + (text + [COLON] + rest) == prefix + (name + [COLON] + text) + [COLON] + rest
  {}

  /** Moving leading text of the payload into the name keeps the hashed bytes. */
  lemma TextMovesIntoName(e: Event, text: string, rest: Bytes)
    requires IsHex(e.payload) && HexToBytes(e.payload) == Utf8.Encode(text) + [COLON] + rest
    ensures V1Preimage(Relabelled(e, e.name + ":" + text, BytesToHex(rest))) == V1Preimage(e)
  {
    var f := Relabelled(e, e.name + ":" + text, BytesToHex(rest));
    BytesOfHexOfBytes(rest);
    HexOfBytesOfHex(e.payload);
    assert NameTail(f.name, e.name) == text;
    TailMovesIntoPayload(f, e.name);
    assert Relabelled(f, e.name, TailPayload(f, e.name)) == e.(digest := "");
  }

  /**
   * The condition is exact: for an ambiguous log there is a log that replays to
   * the same four registers and shows another payload for the name.
   */
  lemma AmbiguousLogHasAnotherReading(hash: Hash, decode: Decode, log: seq<Event>, name: string, p: string)
    returns (other: seq<Event>, q: string)
    requires FixedSize(hash) && ':' !in name && Ambiguous(log, name) && forall e | e in log :: IsHex(e.digest)
    requires SingleEventPayload(hash, decode, log, name) == Ok(Some(p))
    ensures forall e | e in other :: IsHex(e.digest)
    ensures ReplayRtmrs(hash, decode, other) == ReplayRtmrs(hash, decode, log)
    ensures SingleEventPayload(hash, decode, other, name) == Ok(Some(q)) && q != p
  {
    hide EventPreimage;
    hide Rtmr3EventDigest;
    hide DigestIsSelfConsistent;
    hide HexToBytes;
    hide BytesToHex;
    hide TailPayload;
    hide Utf8.Encode;
    var e, f :| e in log && f in log
      && IsV1(e) && e.name == name && StartsWithText(e.payload)
      && IsV1(f) && name + ":" <= f.name && TailPayload(f, name) != e.payload;
    var text: string, rest: Bytes :| HexToBytes(e.payload) == Utf8.Encode(text) + [COLON] + rest;
    var i :| 0 <= i < |log| && log[i] == e;
    var j :| 0 <= j < |log| && log[j] == f;
    q := TailPayload(f, name);
    other := log[i := Relabelled(e, name + ":" + text, BytesToHex(rest))][j := Relabelled(f, name, q)];
    SourceOf(hash, decode, log, name, p, e);
    hide *;
    OtherReadingAt(hash, decode, log, name, i, j, text, rest);
  }

  lemma SourceOf(hash: Hash, decode: Decode, log: seq<Event>, name: string, p: string, e: Event)
    requires SingleEventPayload(hash, decode, log, name) == Ok(Some(p)) && e in log && e.name == name
    ensures |Named(log, name)| == 1 && e.payload == p
  {
    hide DigestIsSelfConsistent;
    assert e in Named(log, name);
  }

  /** The two entries of the twin log: what e and f become when text moves between name and payload. */
  lemma MovedEntries(hash: Hash, decode: Decode, e: Event, f: Event, name: string, text: string, rest: Bytes)
    requires IsV1(e) && e.name == name && HexToBytes(e.payload) == Utf8.Encode(text) + [COLON] + rest
    requires IsV1(f) && name + ":" <= f.name
    ensures e.imr == f.imr == 3 && f.name != name
    ensures var e' := Relabelled(e, name + ":" + text, BytesToHex(rest));
      && EventPreimage(hash, decode, e) == EventPreimage(hash, decode, e')
      && e'.imr == 3 && e'.digest == "" && e'.name != name
    ensures var f' := Relabelled(f, name, TailPayload(f, name));
      && EventPreimage(hash, decode, f) == EventPreimage(hash, decode, f') && EventPreimage(hash, decode, f').Some?
      && f'.imr == 3 && f'.digest == "" && f'.name == name && f'.payload == TailPayload(f, name)
  {
    TextMovesIntoName(e, text, rest);
    TailMovesIntoPayload(f, name);
    var e' := Relabelled(e, name + ":" + text, BytesToHex(rest));
    var f' := Relabelled(f, name, TailPayload(f, name));
    assert |e'.name| > |name| && |f.name| > |name|;
    assert IsV1(e') && IsV1(f');
    hide V1Preimage, TailPayload, HexToBytes, BytesToHex;
    SameBytesSamePreimage(hash, decode, e, e');
    SameBytesSamePreimage(hash, decode, f, f');
  }

  lemma OtherReadingAt(hash: Hash, decode: Decode, log: seq<Event>, name: string, i: nat, j: nat, text: string,
                       rest: Bytes)
    requires i < |log| && j < |log| && |Named(log, name)| == 1 && forall e | e in log :: IsHex(e.digest)
    requires IsV1(log[i]) && log[i].name == name && HexToBytes(log[i].payload) == Utf8.Encode(text) + [COLON] + rest
    requires IsV1(log[j]) && name + ":" <= log[j].name
    ensures var q := TailPayload(log[j], name);
      var other := log[i := Relabelled(log[i], name + ":" + text, BytesToHex(rest))][j := Relabelled(log[j], name, q)];
      && (forall e | e in other :: IsHex(e.digest))
      && ReplayRtmrs(hash, decode, other) == ReplayRtmrs(hash, decode, log)
      && SingleEventPayload(hash, decode, other, name) == Ok(Some(q))
  {
    assert IsHex(log[j].payload);
    hide *;
    MovedEntries(hash, decode, log[i], log[j], name, text, rest);
    TwinReads(hash, decode, log, name, i, j, Relabelled(log[i], name + ":" + text, BytesToHex(rest)),
              Relabelled(log[j], name, TailPayload(log[j], name)));
  }

  /** The twin of a log with e' and f' in places i and j. */
  lemma TwinReads(hash: Hash, decode: Decode, log: seq<Event>, name: string, i: nat, j: nat, e': Event, f': Event)
    requires i < |log| && j < |log| && i != j && |Named(log, name)| == 1 && forall e | e in log :: IsHex(e.digest)
    requires log[i].imr == e'.imr == 3 && log[j].imr == f'.imr == 3 && e'.digest == f'.digest == ""
    requires log[i].name == name && e'.name != name && f'.name == name
    requires EventPreimage(hash, decode, log[i]) == EventPreimage(hash, decode, e')
    requires EventPreimage(hash, decode, log[j]) == EventPreimage(hash, decode, f')
    requires EventPreimage(hash, decode, f').Some?
    ensures var other := log[i := e'][j := f'];
      && (forall e | e in other :: IsHex(e.digest))
      && ReplayRtmrs(hash, decode, other) == ReplayRtmrs(hash, decode, log)
      && SingleEventPayload(hash, decode, other, name) == Ok(Some(f'.payload))
  {
    hide *;
    TwinReplaysAlike(hash, decode, log, i, j, e', f');
    var other := log[i := e'][j := f'];
    OneNameMoves(log, other, name, i, j);
    OnlyEventPayload(hash, decode, other, name, f');
  }

  lemma TwinReplaysAlike(hash: Hash, decode: Decode, log: seq<Event>, i: nat, j: nat, e': Event, f': Event)
    requires i < |log| && j < |log| && i != j && forall e | e in log :: IsHex(e.digest)
    requires log[i].imr == e'.imr == 3 && log[j].imr == f'.imr == 3 && e'.digest == f'.digest == ""
    requires EventPreimage(hash, decode, log[i]) == EventPreimage(hash, decode, e')
    requires EventPreimage(hash, decode, log[j]) == EventPreimage(hash, decode, f')
    ensures var other := log[i := e'][j := f'];
      (forall e | e in other :: IsHex(e.digest)) && ReplayRtmrs(hash, decode, other) == ReplayRtmrs(hash, decode, log)
  {
    hide *;
    SwapKeepsMeasurements(hash, decode, log, i, j, e', f');
    SwapKeepsHex(log, i, j, e', f');
    SameMeasurementsReplayAlike(hash, decode, log[i := e'][j := f'], log);
  }

  lemma OnlyEventPayload(hash: Hash, decode: Decode, log: seq<Event>, name: string, f: Event)
    requires Named(log, name) == [f] && f.imr == 3 && f.digest == "" && EventPreimage(hash, decode, f).Some?
    ensures SingleEventPayload(hash, decode, log, name) == Ok(Some(f.payload))
  {
    hide EventPreimage;
    hide Rtmr3EventDigest;
  }

  lemma SameBytesSamePreimage(hash: Hash, decode: Decode, e: Event, e': Event)
    requires IsV1(e) && IsV1(e') && V1Preimage(e) == V1Preimage(e')
    ensures EventPreimage(hash, decode, e) == EventPreimage(hash, decode, e') && EventPreimage(hash, decode, e').Some?
  {
    hide V1Preimage;
  }

  lemma SwapKeepsHex(log: seq<Event>, i: nat, j: nat, e': Event, f': Event)
    requires i < |log| && j < |log| && e'.digest == f'.digest == "" && forall e | e in log :: IsHex(e.digest)
    ensures forall e | e in log[i := e'][j := f'] :: IsHex(e.digest)
  {}

  lemma SwapKeepsMeasurements(hash: Hash, decode: Decode, log: seq<Event>, i: nat, j: nat, e': Event, f': Event)
    requires i < |log| && j < |log| && i != j
    requires log[i].imr == e'.imr == 3 && log[j].imr == f'.imr == 3
    requires EventPreimage(hash, decode, log[i]) == EventPreimage(hash, decode, e')
    requires EventPreimage(hash, decode, log[j]) == EventPreimage(hash, decode, f')
    ensures SameMeasurements(hash, decode, log[i := e'][j := f'], log)
  {
    hide EventPreimage;
  }

  lemma OneNameMoves(log: seq<Event>, other: seq<Event>, name: string, i: nat, j: nat)
    requires |Named(log, name)| == 1 && |log| == |other| && i < |log| && j < |log| && i != j
    requires log[i].name == name && other[j].name == name && other[i].name != name
    requires forall k | 0 <= k < |log| && k != i && k != j :: other[k] == log[k]
    ensures Named(other, name) == [other[j]]
  {
    forall k | 0 <= k < |log| && k != i ensures log[k].name == name ==> |Named(log, name)| >= 2 {
      if log[k].name == name {
        NamedTwice(log, name, if i < k then i else k, if i < k then k else i);
      }
    }
    NamedOnce(other, j, name);
  }

  function PlainEvent(name: string, payload: string): Event { Event(3, 0.0, "", name, payload, None) }

  /** An ambiguous log that yields a payload: "a" measured as b:c, beside an event named "a:x". */
  lemma AmbiguousLogExists(hash: Hash, decode: Decode)
    ensures var log := [PlainEvent("a", "623a63"), PlainEvent("a:x", "79")];
      Ambiguous(log, "a") && SingleEventPayload(hash, decode, log, "a") == Ok(Some("623a63"))
  {
    var e, f := PlainEvent("a", "623a63"), PlainEvent("a:x", "79");
    FirstPayloadIsText();
    TailOfSecond();
    assert IsHex("623a63") && IsHex("79");
    hide HexToBytes;
    hide TailPayload;
    assert "a" + ":" <= f.name;
    assert e in [e, f] && f in [e, f];
    assert |f.name| == 3;
    NamedOnce([e, f], 0, "a");
    OnlyEventPayload(hash, decode, [e, f], "a", e);
  }

  lemma FirstPayloadIsText()
    ensures IsHex("623a63") && StartsWithText("623a63") && HexToBytes("623a63")[0] == 0x62
  {
    HexToBytesConcat("62", "3a63");
    HexToBytesConcat("3a", "63");
    assert "62" + "3a63" == "623a63" && "3a" + "63" == "3a63";
    assert HexToBytes("62") == [0x62] && HexToBytes("3a") == [COLON];
    EncodeOne('b');
    assert HexToBytes("623a63") == Utf8.Encode("b") + [COLON] + HexToBytes("63");
  }

  lemma EncodeOne(c: char)
    requires c as int < 0x80
    ensures Utf8.Encode([c]) == [c as int]
  {
    assert [c][1..] == "";
  }

  lemma TailOfSecond()
    ensures var f := PlainEvent("a:x", "79");
      && IsHex(f.payload) && "a" + ":" <= f.name && TailPayload(f, "a") != "623a63"
  {
    var f := PlainEvent("a:x", "79");
    assert "a" + ":" == f.name[..2] && NameTail(f.name, "a") == ['x'];
    EncodeOne('x');
    BytesOfHexOfBytes([0x78, COLON] + HexToBytes("79"));
    assert HexToBytes(TailPayload(f, "a"))[0] == 0x78;
    FirstPayloadIsText();
  }

  lemma {:induction false} HexToBytesConcat(s: string, t: string)
    requires IsHex(s) && IsHex(t)
    ensures IsHex(s + t) && HexToBytes(s + t) == HexToBytes(s) + HexToBytes(t)
  {
    hide HexToBytes;
    if s == "" {
      assert s + t == t;
      assert HexToBytes(s) == [] && [] + HexToBytes(t) == HexToBytes(t);
    } else {
      assert (s + t)[2..] == s[2..] + t && (s + t)[0] == s[0] && (s + t)[1] == s[1];
      HexToBytesConcat(s[2..], t);
      HexHead(s);
      HexHead(s + t);
      Regroup([HexValue(s[0]) * 16 + HexValue(s[1])], HexToBytes(s[2..]), HexToBytes(t));
    }
  }

  lemma HexHead(s: string)
    requires IsHex(s) && s != ""
    ensures IsHex(s[2..]) && HexToBytes(s) == [HexValue(s[0]) * 16 + HexValue(s[1])] + HexToBytes(s[2..])
  {}

  lemma Regroup(a: Bytes, b: Bytes, c: Bytes)
    ensures a + (b + c) == a + b + c
  {}
}
