/**
 * Signed gateway policies: what an accepted envelope proves. SHA-256, Ed25519,
 * JSON.parse and policy loading are arbitrary functions.
 */
module PolicyAuthority {
  import opened Wrappers
  import opened Numbers
  import opened Text
  import opened CanonicalJson
  import opened CanonicalRoundTrip
  import opened JsonRecord
  import Utf8

  const POLICY_DOMAIN := "anonrouter.gateway-policy-signature/v1\n"
  const MAX_POLICY_BYTES := 262144
  const MAX_SIGNATURES := 16

  type Key = seq<Byte>

  datatype MeasurementPolicy = MeasurementPolicy(origins: seq<string>, source: string,
      meetsFloor: bool, qualified: bool)

  datatype Primitives = Primitives(
    parse: string -> Option<Json>,                       // JSON.parse
    sha256: seq<Byte> -> seq<Byte>,
    verifies: (seq<Byte>, seq<Byte>, Key) -> bool,       // ed25519.verify(signature, message, key)
    load: Json -> Option<MeasurementPolicy>,             // loadGatewayPolicy
    canonicalOrigin: string -> Option<string>)           // canonicalGatewayOrigin

  datatype Root = Root(
    schemaOk: bool, authority: string, urlOk: bool, origins: seq<string>, originsSeparate: bool,
    threshold: int, keys: map<string, string>,
    minSequence: int, maxLifetimeMs: int, refreshMs: int, maxStaleMs: int)

  datatype Checkpoint = Checkpoint(sequence: int, payloadSha256: string)

  datatype Verified = Verified(
    policy: MeasurementPolicy, sequence: int, payloadSha256: string, authority: string,
    manifestSha256: string, issuedAtMs: int, expiresAtMs: int, acceptedKeyIds: seq<string>)

  predicate LowerHex(s: string, digits: nat) { |s| == digits && forall c | c in s :: IsHexDigit(c) }

  /** validateGatewayPolicyAuthority. */
  predicate ValidRoot(root: Root) {
    && root.schemaOk && root.authority != "" && root.urlOk && root.origins != [] && root.originsSeparate
    && SafeAtLeast(root.threshold, 2) && SafeAtLeast(root.minSequence, 1)
    && SafeAtLeast(root.maxLifetimeMs, 1) && SafeAtLeast(root.refreshMs, 1)
    && SafeAtLeast(root.maxStaleMs, root.refreshMs)
    && root.maxLifetimeMs <= 604800000 && root.refreshMs <= 300000 && root.maxStaleMs <= 7200000
    && |root.keys| >= root.threshold
    && (forall a, b | a in root.keys && b in root.keys && root.keys[a] == root.keys[b] :: a == b)
    && forall id | id in root.keys :: LowerHex(root.keys[id], 64)
  }

  // ---- Reading records ------------------------------------------------------------------

  /** integer(): a safe integer of at least minimum; -0 counts as 0. */
  function GetInteger(v: Json, key: string, minimum: int): Option<int> {
    match Get(v, key)
    case Some(JInt(n)) => if SafeAtLeast(n, minimum) then Some(n) else None
    case Some(JNegativeZero) => if minimum <= 0 then Some(0) else None
    case _ => None
  }

  function Keys(fields: seq<Field<Json>>): (keys: seq<string>)
    ensures |keys| == |fields|
  {
    seq(|fields|, i requires 0 <= i < |fields| => fields[i].key)
  }

  /** fields(): the sorted key list and the sorted expected names, both joined by commas, are one text. */
  predicate HasFields(v: Json, names: seq<string>) {
    v.JObject? && Join(Keys(SortFields(v.members)), ",") == Join(names, ",")
  }

  const ENVELOPE_FIELDS := ["payload", "schema", "signatures"]
  const PAYLOAD_FIELDS := ["authority", "expiresAtMs", "issuedAtMs", "manifestSha256", "policy", "schema", "sequence"]
  const SIGNATURE_FIELDS := ["keyId", "signature"]

  // ---- What is checked ------------------------------------------------------------------

  predicate EnvelopeOk(envelope: Json) {
    && HasFields(envelope, ENVELOPE_FIELDS)
    && GetText(envelope, "schema") == Some("anonrouter.gateway-policy-envelope/v1")
    && GetText(envelope, "payload").Some?
    && |Utf8.Encode(GetText(envelope, "payload").value)| <= MAX_POLICY_BYTES
  }

  /** The payload text is the canonical text of what it parses to. */
  predicate PayloadCanonical(p: Primitives, payload: string) {
    var raw := p.parse(payload);
    raw.Some? && raw.value.JObject? && Canonical(Policy, raw.value, 0) == Some(payload)
  }

  predicate PayloadFieldsOk(raw: Json, root: Root) {
    && HasFields(raw, PAYLOAD_FIELDS)
    && GetText(raw, "schema") == Some("anonrouter.gateway-policy/v1")
    && GetText(raw, "authority") == Some(root.authority)
    && GetText(raw, "manifestSha256").Some? && LowerHex(GetText(raw, "manifestSha256").value, 64)
    && GetInteger(raw, "sequence", root.minSequence).Some?
    && GetInteger(raw, "issuedAtMs", 0).Some? && GetInteger(raw, "expiresAtMs", 0).Some?
  }

  predicate Timely(issued: int, expires: int, root: Root, now: int) {
    issued <= now < expires && issued < expires && expires - issued <= root.maxLifetimeMs
  }

  predicate NoRollback(sequence: int, payloadSha256: string, previous: Option<Checkpoint>) {
    previous.Some? ==>
      && previous.value.sequence <= sequence
      && (previous.value.sequence == sequence ==> previous.value.payloadSha256 == payloadSha256)
  }

  /** One entry of the signature list is well formed, names a root key and verifies. */
  predicate SignatureOk(p: Primitives, root: Root, payload: string, item: Json) {
    && HasFields(item, SIGNATURE_FIELDS)
    && GetText(item, "keyId").Some? && GetText(item, "keyId").value in root.keys
    && IsHex(root.keys[GetText(item, "keyId").value])
    && GetText(item, "signature").Some? && LowerHex(GetText(item, "signature").value, 128)
    && p.verifies(HexToBytes(GetText(item, "signature").value), Utf8.Encode(POLICY_DOMAIN + payload),
                  HexToBytes(root.keys[GetText(item, "keyId").value]))
  }

  function KeyId(item: Json): string { if GetText(item, "keyId").Some? then GetText(item, "keyId").value else "" }

  ghost predicate SignaturesOk(p: Primitives, root: Root, payload: string, items: seq<Json>) {
    && (forall i | 0 <= i < |items| :: SignatureOk(p, root, payload, items[i]))
    && forall i, j | 0 <= i < j < |items| :: KeyId(items[i]) != KeyId(items[j])
  }

  function KeyIds(items: seq<Json>): (ids: seq<string>)
    ensures |ids| == |items|
  {
    seq(|items|, i requires 0 <= i < |items| => KeyId(items[i]))
  }

  predicate PolicyOk(policy: Option<MeasurementPolicy>, root: Root, origin: Option<string>, manifest: string) {
    && policy.Some? && policy.value.meetsFloor && policy.value.qualified
    && origin.Some? && origin.value in root.origins && origin.value in policy.value.origins
    && (forall o | o in policy.value.origins :: o in root.origins)
    && policy.value.source == "anonrouter-release-manifest-sha256:" + manifest
  }

  function PayloadSha(p: Primitives, payload: string): string { BytesToHex(p.sha256(Utf8.Encode(payload))) }

  /** Everything verifySignedGatewayPolicy insists on, with no order of checking. */
  ghost predicate Acceptable(p: Primitives, envelope: Json, root: Root, origin: string, now: int,
                             previous: Option<Checkpoint>) {
    && ValidRoot(root) && SafeAtLeast(now, 0) && EnvelopeOk(envelope)
    && var payload := GetText(envelope, "payload").value;
    && PayloadCanonical(p, payload)
    && var raw := p.parse(payload).value;
    && PayloadFieldsOk(raw, root)
    && Timely(GetInteger(raw, "issuedAtMs", 0).value, GetInteger(raw, "expiresAtMs", 0).value, root, now)
    && NoRollback(GetInteger(raw, "sequence", root.minSequence).value, PayloadSha(p, payload), previous)
    && var signatures := Get(envelope, "signatures");
    && signatures.Some? && signatures.value.JArray?
    && root.threshold <= |signatures.value.items| <= MAX_SIGNATURES
    && SignaturesOk(p, root, payload, signatures.value.items)
    && var policy := Get(raw, "policy");
    && policy.Some?
    && PolicyOk(p.load(policy.value), root, p.canonicalOrigin(origin), GetText(raw, "manifestSha256").value)
  }

  /** The approval built from an acceptable envelope; the clock and the checkpoint do not shape it. */
  ghost function Approval(p: Primitives, envelope: Json, root: Root): Verified
    requires exists origin, now, previous :: Acceptable(p, envelope, root, origin, now, previous)
  {
    var payload := GetText(envelope, "payload").value;
    var raw := p.parse(payload).value;
    Verified(p.load(Get(raw, "policy").value).value,
             GetInteger(raw, "sequence", root.minSequence).value, PayloadSha(p, payload), root.authority,
             GetText(raw, "manifestSha256").value,
             GetInteger(raw, "issuedAtMs", 0).value, GetInteger(raw, "expiresAtMs", 0).value,
             KeyIds(Get(envelope, "signatures").value.items))
  }

  /** verifySignedGatewayPolicy; None where it throws. */
  ghost function Verify(p: Primitives, envelope: Json, root: Root, origin: string, now: int,
                        previous: Option<Checkpoint>)
    : Option<Verified>
  {
    if Acceptable(p, envelope, root, origin, now, previous) then Some(Approval(p, envelope, root)) else None
  }

  /** The signature loop: entries are accepted one by one, each key at most once. */
  method CheckSignatures(p: Primitives, root: Root, payload: string, items: seq<Json>)
    returns (accepted: Option<seq<string>>)
    ensures accepted.Some? <==> SignaturesOk(p, root, payload, items)
    ensures accepted.Some? ==> accepted.value == KeyIds(items)
  {
    var acceptedKeyIds: seq<string> := [];
    for i := 0 to |items|
      invariant SignaturesOk(p, root, payload, items[..i]) && acceptedKeyIds == KeyIds(items[..i])
    {
      hide *;
      var item := items[i];
      assert items[..i + 1] == items[..i] + [item];
      OneMoreSignature(p, root, payload, items[..i], item);
      PrefixSignatures(p, root, payload, items, i + 1);
      if !SignatureOk(p, root, payload, item) || KeyId(item) in acceptedKeyIds { return None; }
      acceptedKeyIds := acceptedKeyIds + [KeyId(item)];
    }
    assert items[..|items|] == items;
    return Some(acceptedKeyIds);
  }

  lemma OneMoreSignature(p: Primitives, root: Root, payload: string, items: seq<Json>, item: Json)
    requires SignaturesOk(p, root, payload, items)
    ensures SignaturesOk(p, root, payload, items + [item]) <==>
      SignatureOk(p, root, payload, item) && KeyId(item) !in KeyIds(items)
    ensures KeyIds(items + [item]) == KeyIds(items) + [KeyId(item)]
  {
    var longer := items + [item];
    if SignaturesOk(p, root, payload, longer) {
      assert SignatureOk(p, root, payload, longer[|items|]);
      forall i | 0 <= i < |items| ensures KeyIds(items)[i] != KeyId(item) {
        assert KeyId(longer[i]) != KeyId(longer[|items|]);
      }
    } else if SignatureOk(p, root, payload, item) && KeyId(item) !in KeyIds(items) {
      forall i | 0 <= i < |items| ensures KeyId(items[i]) != KeyId(item) { assert KeyIds(items)[i] in KeyIds(items); }
    }
  }

  lemma PrefixSignatures(p: Primitives, root: Root, payload: string, items: seq<Json>, n: nat)
    requires n <= |items|
    ensures SignaturesOk(p, root, payload, items) ==> SignaturesOk(p, root, payload, items[..n])
  {}

  /** verifySignedGatewayPolicy, check by check. */
  method VerifySignedGatewayPolicy(
    p: Primitives, envelope: Json, root: Root, origin: string, now: int, previous: Option<Checkpoint>)
    returns (approval: Option<Verified>)
    ensures approval == Verify(p, envelope, root, origin, now, previous)
  {
    hide SignaturesOk, PayloadCanonical, PayloadFieldsOk, PolicyOk, EnvelopeOk, ValidRoot;
    if !ValidRoot(root) || !SafeAtLeast(now, 0) || !EnvelopeOk(envelope) { return None; }
    EnvelopeHasPayload(envelope);
    var payload := GetText(envelope, "payload").value;
    if !PayloadCanonical(p, payload) { return None; }
    PayloadParses(p, payload);
    var raw := p.parse(payload).value;
    if !PayloadFieldsOk(raw, root) { return None; }
    PayloadHasFields(raw, root);
    var manifest := GetText(raw, "manifestSha256").value;
    var sequence := GetInteger(raw, "sequence", root.minSequence).value;
    var issuedAtMs := GetInteger(raw, "issuedAtMs", 0).value;
    var expiresAtMs := GetInteger(raw, "expiresAtMs", 0).value;
    if !Timely(issuedAtMs, expiresAtMs, root, now) { return None; }
    var payloadSha256 := PayloadSha(p, payload);
    if !NoRollback(sequence, payloadSha256, previous) { return None; }
    var signatures := Get(envelope, "signatures");
    if signatures.None? || !signatures.value.JArray? || |signatures.value.items| > MAX_SIGNATURES { return None; }
    var accepted := CheckSignatures(p, root, payload, signatures.value.items);
    if accepted.None? || |accepted.value| < root.threshold { return None; }
    var policy := Get(raw, "policy");
    if policy.None? || !PolicyOk(p.load(policy.value), root, p.canonicalOrigin(origin), manifest) { return None; }
    PolicyLoads(p.load(policy.value), root, p.canonicalOrigin(origin), manifest);
    return Some(Verified(p.load(policy.value).value, sequence, payloadSha256, root.authority, manifest,
                         issuedAtMs, expiresAtMs, accepted.value));
  }

  lemma EnvelopeHasPayload(envelope: Json)
    requires EnvelopeOk(envelope)
    ensures GetText(envelope, "payload").Some?
  {}

  lemma PayloadParses(p: Primitives, payload: string)
    requires PayloadCanonical(p, payload)
    ensures p.parse(payload).Some?
  {}

  lemma PayloadHasFields(raw: Json, root: Root)
    requires PayloadFieldsOk(raw, root)
    ensures GetText(raw, "manifestSha256").Some? && GetInteger(raw, "sequence", root.minSequence).Some?
    ensures GetInteger(raw, "issuedAtMs", 0).Some? && GetInteger(raw, "expiresAtMs", 0).Some?
  {}

  lemma PolicyLoads(policy: Option<MeasurementPolicy>, root: Root, origin: Option<string>, manifest: string)
    requires PolicyOk(policy, root, origin, manifest)
    ensures policy.Some?
  {}

  // ---- What acceptance proves -------------------------------------------------------------

  /** JSON.parse never builds an object with a key twice. */
  ghost predicate ParsesToObjects(p: Primitives) {
    forall text :: p.parse(text).Some? ==> DistinctKeys(p.parse(text).value)
  }

  /** The entry names this public key of the root, and its signature over domain and payload verifies under it. */
  ghost predicate SignsUnder(p: Primitives, root: Root, payload: string, item: Json, key: string) {
    && KeyId(item) in root.keys && root.keys[KeyId(item)] == key && IsHex(key)
    && GetText(item, "signature").Some? && IsHex(GetText(item, "signature").value)
    && p.verifies(HexToBytes(GetText(item, "signature").value), Utf8.Encode(POLICY_DOMAIN + payload), HexToBytes(key))
  }

  ghost predicate SignedUnder(p: Primitives, root: Root, payload: string, items: seq<Json>, key: string) {
    exists i | 0 <= i < |items| :: SignsUnder(p, root, payload, items[i], key)
  }

  lemma {:induction false} SignersAreDistinctKeys(p: Primitives, root: Root, payload: string, items: seq<Json>)
    returns (signers: set<string>)
    requires ValidRoot(root) && SignaturesOk(p, root, payload, items)
    ensures |signers| == |items| && signers <= root.keys.Values
    ensures forall key | key in signers :: SignedUnder(p, root, payload, items, key)
    decreases |items|
  {
    hide *;
    if items == [] { return {}; }
    var n := |items| - 1;
    var init, last := items[..n], items[n];
    PrefixSignatures(p, root, payload, items, n);
    assert items == init + [last];
    OneMoreSignature(p, root, payload, init, last);
    var key := EntrySigns(p, root, payload, last);
    var earlier := SignersAreDistinctKeys(p, root, payload, init);
    NotSignedTwice(p, root, payload, init, last, key);
    signers := earlier + {key};
    SignedInLonger(p, root, payload, init, last, key, earlier);
  }

  lemma EntrySigns(p: Primitives, root: Root, payload: string, item: Json) returns (key: string)
    requires SignatureOk(p, root, payload, item)
    ensures SignsUnder(p, root, payload, item, key) && key in root.keys.Values
  {
    key := root.keys[KeyId(item)];
  }

  lemma NotSignedTwice(p: Primitives, root: Root, payload: string, items: seq<Json>, item: Json, key: string)
    requires ValidRoot(root) && KeyId(item) !in KeyIds(items) && SignsUnder(p, root, payload, item, key)
    ensures !SignedUnder(p, root, payload, items, key)
  {
    forall i | 0 <= i < |items| ensures !SignsUnder(p, root, payload, items[i], key) {
      assert KeyIds(items)[i] == KeyId(items[i]);
    }
  }

  lemma SignedInLonger(p: Primitives, root: Root, payload: string, items: seq<Json>, item: Json, key: string,
                       keys: set<string>)
    requires forall k | k in keys :: SignedUnder(p, root, payload, items, k)
    requires SignsUnder(p, root, payload, item, key)
    ensures forall k | k in keys + {key} :: SignedUnder(p, root, payload, items + [item], k)
  {
    hide SignsUnder;
    var longer := items + [item];
    assert longer[|items|] == item;
    assert forall i | 0 <= i < |items| :: longer[i] == items[i];
  }

  /** Distinct key texts are distinct keys. */
  lemma KeyTextsAreKeys(root: Root, a: string, b: string)
    requires ValidRoot(root) && a in root.keys.Values && b in root.keys.Values && a != b
    ensures IsHex(a) && IsHex(b) && HexToBytes(a) != HexToBytes(b)
  {
    var i :| i in root.keys && root.keys[i] == a;
    var j :| j in root.keys && root.keys[j] == b;
    HexOfBytesOfHex(a);
    HexOfBytesOfHex(b);
  }

  /**
   * An accepted envelope is signed by at least threshold pairwise distinct public keys of the root,
   * over domain and payload.
   */
  lemma AcceptedBySeveralKeys(p: Primitives, envelope: Json, root: Root, origin: string, now: int,
                              previous: Option<Checkpoint>)
    returns (signers: set<string>)
    requires Verify(p, envelope, root, origin, now, previous).Some?
    ensures |signers| >= root.threshold && signers <= root.keys.Values
    ensures forall key | key in signers ::
      SignedUnder(p, root, GetText(envelope, "payload").value, Get(envelope, "signatures").value.items, key)
  {
    hide PayloadCanonical, PayloadFieldsOk, PolicyOk, SignaturesOk, ValidRoot;
    signers := SignersAreDistinctKeys(p, root, GetText(envelope, "payload").value,
                                         Get(envelope, "signatures").value.items);
  }

  /** The accepted payload reads back as its own data, and no other accepted text carries the same data. */
  lemma AcceptedTextIsUnique(p: Primitives, payload: string, other: string)
    requires ParsesToObjects(p) && PayloadCanonical(p, payload) && PayloadCanonical(p, other)
    ensures DecodeValue(Policy, payload, 0) == Some((Norm(p.parse(payload).value), ""))
    ensures payload == other <==> SameData(p.parse(payload).value, p.parse(other).value)
  {
    CanonicalTextIdentifiesData(Policy, p.parse(payload).value, p.parse(other).value, 0);
    NormHasSameText(Policy, p.parse(payload).value, 0);
  }

  /** Two approvals with one payload digest approve the same payload, or SHA-256 collides on the two. */
  lemma DigestNamesPayload(p: Primitives, a: string, b: string)
    requires PayloadSha(p, a) == PayloadSha(p, b)
    ensures a == b || (Utf8.Encode(a) != Utf8.Encode(b) && p.sha256(Utf8.Encode(a)) == p.sha256(Utf8.Encode(b)))
  {
    BytesOfHexOfBytes(p.sha256(Utf8.Encode(a)));
    BytesOfHexOfBytes(p.sha256(Utf8.Encode(b)));
    Utf8.EncodeInjective(a, b);
  }
}
