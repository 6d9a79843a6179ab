/** When a signed policy is accepted, in terms of the envelope's own fields. */
module PolicyAcceptance {
  import opened Wrappers
  import opened Text
  import opened CanonicalJson
  import opened JsonRecord
  import opened PolicyAuthority
  import Utf8

  // ---- The key lists, compared as joined texts -----------------------------------------------

  function Commas(s: string): nat { if s == "" then 0 else (if s[0] == ',' then 1 else 0) + Commas(s[1..]) }

  lemma {:induction false} CommasConcat(s: string, t: string)
    ensures Commas(s + t) == Commas(s) + Commas(t)
  {
    if s == "" {
      assert s + t == t;
    } else {
      CommasConcat(s[1..], t);
      assert (s + t)[1..] == s[1..] + t;
    }
  }

  /** A joined list holds a comma between any two parts. */
  lemma {:induction false} CommasOfJoin(parts: seq<string>)
    requires parts != []
    ensures Commas(Join(parts, ",")) >= |parts| - 1
    ensures (forall p | p in parts :: ',' !in p) ==> Commas(Join(parts, ",")) == |parts| - 1
  {
    NoCommas(parts[0]);
    if |parts| > 1 {
      var rest := Join(parts[1..], ",");
      CommasOfJoin(parts[1..]);
      CommasConcat(parts[0] + ",", rest);
      CommasConcat(parts[0], ",");
    }
  }

  lemma {:induction false} NoCommas(s: string)
    ensures ',' !in s ==> Commas(s) == 0
  {
    if s != "" { NoCommas(s[1..]); }
  }

  /** These names are in order, hold no comma, and are all keys of the record. */
  ghost predicate AllPresent(v: Json, names: seq<string>) {
    && v.JObject? && names != []
    && (forall i, j | 0 <= i < j < |names| :: Less(names[i], names[j]))
    && (forall n | n in names :: ',' !in n)
    && forall n | n in names :: Get(v, n).Some?
  }

  function KeySet(members: seq<Field<Json>>): set<string> { set m | m in members :: m.key }

  ghost predicate DifferentKeys(members: seq<Field<Json>>) {
    forall i, j | 0 <= i < j < |members| :: members[i].key != members[j].key
  }

  lemma {:induction false} KeySetSize(members: seq<Field<Json>>)
    ensures |KeySet(members)| <= |members|
    ensures |KeySet(members)| == |members| ==> DifferentKeys(members)
  {
    if members != [] {
      var tail := members[1..];
      KeySetSize(tail);
      assert members == [members[0]] + tail;
      assert KeySet(members) == {members[0].key} + KeySet(tail);
      if members[0].key in KeySet(tail) {
        assert KeySet(members) == KeySet(tail);
      } else if DifferentKeys(tail) {
        OneMoreKey(members);
      }
    }
  }

  lemma OneMoreKey(members: seq<Field<Json>>)
    requires members != [] && DifferentKeys(members[1..]) && members[0].key !in KeySet(members[1..])
    ensures DifferentKeys(members)
  {
    var tail := members[1..];
    forall i, j | 0 <= i < j < |members| ensures members[i].key != members[j].key {
      assert tail[j - 1] == members[j] && members[j] in tail;
      if i > 0 { assert tail[i - 1] == members[i]; }
    }
  }

  function NameSet(names: seq<string>): set<string> { set n | n in names }

  lemma {:induction false} NameSetSize(names: seq<string>)
    requires forall i, j | 0 <= i < j < |names| :: Less(names[i], names[j])
    ensures |NameSet(names)| == |names|
  {
    if names != [] {
      NameSetSize(names[1..]);
      forall n | n in names[1..] ensures n != names[0] {
        var j :| 0 <= j < |names[1..]| && names[1..][j] == n;
        assert Less(names[0], names[j + 1]);
        LessTotal(n, n);
      }
      assert NameSet(names) == {names[0]} + NameSet(names[1..]);
    }
  }

  lemma {:induction false} FoundIsMember(members: seq<Field<Json>>, key: string)
    requires Find(members, key).Some?
    ensures Field(key, Find(members, key).value) in members
  {
    if members[0].key != key {
      FoundIsMember(members[1..], key);
    }
  }

  /** At least as many members as names; and distinct keys when as many. */
  lemma NamesAreKeys(v: Json, names: seq<string>)
    requires AllPresent(v, names)
    ensures |names| <= |v.members|
    ensures |names| == |v.members| ==> DifferentKeys(v.members)
  {
    NameSetSize(names);
    KeySetSize(v.members);
    forall n | n in names ensures n in KeySet(v.members) {
      FoundIsMember(v.members, n);
    }
    SmallerSet(NameSet(names), KeySet(v.members));
  }

  lemma SmallerSet(a: set<string>, b: set<string>)
    requires a <= b
    ensures |a| <= |b|
  {
    if a != {} {
      var x :| x in a;
      SmallerSet(a - {x}, b - {x});
    }
  }

  function Named(v: Json, names: seq<string>): (fields: seq<Field<Json>>)
    requires forall n | n in names :: Get(v, n).Some?
    ensures |fields| == |names|
    ensures forall i | 0 <= i < |names| :: fields[i].key == names[i]
  {
    seq(|names|, i requires 0 <= i < |names| => Field(names[i], Get(v, names[i]).value))
  }

  lemma SortedAreNamed(v: Json, names: seq<string>)
    requires AllPresent(v, names) && |names| == |v.members|
    ensures Keys(SortFields(v.members)) == names
  {
    NamesAreKeys(v, names);
    SortAscends(v.members);
    var fields, sorted := Named(v, names), SortFields(v.members);
    forall f | f in fields ensures f in sorted {
      var i :| 0 <= i < |names| && fields[i] == f;
      FoundIsMember(v.members, names[i]);
      assert f in multiset(v.members);
    }
    AscendingUnique(fields, sorted);
  }

  /**
   * Where all names are present, comparing the joined texts of the sorted lists comes to the same as
   * counting: no key can smuggle in a comma.
   */
  lemma FieldsExactly(v: Json, names: seq<string>)
    requires AllPresent(v, names)
    ensures HasFields(v, names) <==> |v.members| == |names|
  {
    NamesAreKeys(v, names);
    if |v.members| == |names| {
      SortedAreNamed(v, names);
    } else {
      CommasOfJoin(names);
      CommasOfJoin(Keys(SortFields(v.members)));
    }
  }

  // ---- Acceptance ----------------------------------------------------------------------------------

  /** The field holds this safe integer; -0 is held as 0. */
  predicate Holds(v: Json, key: string, n: int) {
    && -9007199254740991 <= n <= 9007199254740991
    && (Get(v, key) == Some(JInt(n)) || (n == 0 && Get(v, key) == Some(JNegativeZero)))
  }

  predicate Digits(s: string, n: nat) { |s| == n && forall c | c in s :: '0' <= c <= '9' || 'a' <= c <= 'f' }

  /** The pinned authority is usable: two signers or more, distinct 32-byte keys, bounded lifetimes. */
  predicate RootIsSound(root: Root) {
    && root.schemaOk && root.authority != "" && root.urlOk && root.origins != [] && root.originsSeparate
    && 2 <= root.threshold <= 9007199254740991 && root.threshold <= |root.keys|
    && 1 <= root.minSequence <= 9007199254740991
    && 1 <= root.maxLifetimeMs <= 604800000 && 1 <= root.refreshMs <= 300000
    && root.refreshMs <= root.maxStaleMs <= 7200000
    && (forall a | a in root.keys :: Digits(root.keys[a], 64))
    && forall a, b | a in root.keys && b in root.keys && a != b :: root.keys[a] != root.keys[b]
  }

  lemma RootExactly(root: Root)
    ensures ValidRoot(root) <==> RootIsSound(root)
  {}

  /** A record of these three fields and no other, with the schema and a payload of at most 256 KiB. */
  predicate Wraps(envelope: Json, payload: string) {
    && envelope.JObject? && |envelope.members| == 3
    && Get(envelope, "schema") == Some(JString("anonrouter.gateway-policy-envelope/v1"))
    && Get(envelope, "payload") == Some(JString(payload)) && |Utf8.Encode(payload)| <= 262144
    && Get(envelope, "signatures").Some?
  }

  lemma EnvelopeExactly(envelope: Json, payload: string)
    ensures Get(envelope, "signatures").Some? ==>
      (EnvelopeOk(envelope) && GetText(envelope, "payload") == Some(payload) <==> Wraps(envelope, payload))
  {
    EnvelopeNamesSorted();
    if AllPresent(envelope, ENVELOPE_FIELDS) { FieldsExactly(envelope, ENVELOPE_FIELDS); }
    hide HasFields, Get, Less;
  }

  lemma EnvelopeNamesSorted()
    ensures forall i, j | 0 <= i < j < 3 :: Less(ENVELOPE_FIELDS[i], ENVELOPE_FIELDS[j])
    ensures forall n | n in ENVELOPE_FIELDS :: ',' !in n
  {}

  /** What the payload says, and that it says nothing else: seven fields, in canonical text. */
  predicate Says(p: Primitives, payload: string, raw: Json, authority: string, manifest: string,
                 sequence: int, issued: int, expires: int) {
    && p.parse(payload) == Some(raw) && Canonical(Policy, raw, 0) == Some(payload)
    && raw.JObject? && |raw.members| == 7 && Get(raw, "policy").Some?
    && Get(raw, "schema") == Some(JString("anonrouter.gateway-policy/v1"))
    && Get(raw, "authority") == Some(JString(authority))
    && Get(raw, "manifestSha256") == Some(JString(manifest)) && Digits(manifest, 64)
    && Holds(raw, "sequence", sequence) && Holds(raw, "issuedAtMs", issued) && Holds(raw, "expiresAtMs", expires)
  }

  lemma PayloadNamesSorted()
    ensures forall i, j | 0 <= i < j < 7 :: Less(PAYLOAD_FIELDS[i], PAYLOAD_FIELDS[j])
    ensures forall n | n in PAYLOAD_FIELDS :: ',' !in n
  {
    var f := PAYLOAD_FIELDS;
    forall i | 0 <= i < 6 ensures Less(f[i], f[i + 1]) {}
    forall i, j | 0 <= i < j < 7 ensures Less(f[i], f[j]) {
      NamesAscend(f, i, j);
    }
  }

  lemma {:induction false} NamesAscend(names: seq<string>, i: nat, j: nat)
    requires i < j < |names| && forall k | 0 <= k < |names| - 1 :: Less(names[k], names[k + 1])
    ensures Less(names[i], names[j])
  {
    if i + 1 < j {
      NamesAscend(names, i, j - 1);
      LessTransitive(names[i], names[j - 1], names[j]);
    }
  }

  lemma IntegerExactly(v: Json, key: string, minimum: int, n: int)
    ensures GetInteger(v, key, minimum) == Some(n) <==> Holds(v, key, n) && minimum <= n
    ensures Holds(v, key, n) ==> Get(v, key).Some?
  {
    hide Get;
  }

  lemma PayloadExactly(p: Primitives, root: Root, payload: string, raw: Json, manifest: string,
                       sequence: int, issued: int, expires: int)
    requires Get(raw, "policy").Some?
    ensures
      (&& p.parse(payload) == Some(raw) && PayloadCanonical(p, payload) && PayloadFieldsOk(raw, root)
       && GetText(raw, "manifestSha256") == Some(manifest)
       && GetInteger(raw, "sequence", root.minSequence) == Some(sequence)
       && GetInteger(raw, "issuedAtMs", 0) == Some(issued) && GetInteger(raw, "expiresAtMs", 0) == Some(expires))
      <==>
      (&& Says(p, payload, raw, root.authority, manifest, sequence, issued, expires)
       && root.minSequence <= sequence && 0 <= issued && 0 <= expires)
  {
    hide HasFields, Get, GetText, GetInteger, Holds, Canonical, LowerHex, Digits;
    IntegerExactly(raw, "sequence", root.minSequence, sequence);
    IntegerExactly(raw, "issuedAtMs", 0, issued);
    IntegerExactly(raw, "expiresAtMs", 0, expires);
    TextExactly(raw, "schema", "anonrouter.gateway-policy/v1");
    TextExactly(raw, "authority", root.authority);
    TextExactly(raw, "manifestSha256", manifest);
    if SevenFields(raw) { SevenFieldsExactly(raw); }
    DigitsExactly(manifest, 64);
  }

  lemma TextExactly(v: Json, key: string, text: string)
    ensures GetText(v, key) == Some(text) <==> Get(v, key) == Some(JString(text))
  {}

  lemma DigitsExactly(s: string, n: nat)
    ensures LowerHex(s, n) <==> Digits(s, n)
  {}

  predicate SevenFields(v: Json) {
    && v.JObject? && Get(v, "authority").Some? && Get(v, "expiresAtMs").Some? && Get(v, "issuedAtMs").Some?
    && Get(v, "manifestSha256").Some? && Get(v, "policy").Some? && Get(v, "schema").Some? && Get(v, "sequence").Some?
  }

  lemma SevenFieldsExactly(v: Json)
    requires SevenFields(v)
    ensures HasFields(v, PAYLOAD_FIELDS) <==> |v.members| == 7
  {
    PayloadNamesSorted();
    hide HasFields, Get, Less;
    FieldsExactly(v, PAYLOAD_FIELDS);
  }

  /** The entry is two fields: the name of a key of the root, and a 64-byte signature that key verifies. */
  predicate Signs(p: Primitives, root: Root, payload: string, item: Json, id: string) {
    && item.JObject? && |item.members| == 2
    && Get(item, "keyId") == Some(JString(id)) && id in root.keys && Digits(root.keys[id], 64)
    && Get(item, "signature").Some? && Get(item, "signature").value.JString?
    && var signature := Get(item, "signature").value.text;
    && Digits(signature, 128)
    && p.verifies(HexToBytes(signature), Utf8.Encode("anonrouter.gateway-policy-signature/v1\n" + payload),
                  HexToBytes(root.keys[id]))
  }

  lemma SignatureExactly(p: Primitives, root: Root, payload: string, item: Json, id: string)
    requires RootIsSound(root)
    ensures SignatureOk(p, root, payload, item) && KeyId(item) == id <==> Signs(p, root, payload, item, id)
  {
    assert id in root.keys ==> Digits(root.keys[id], 64);
    hide RootIsSound;
    if TwoFields(item) { TwoFieldsExactly(item); }
    hide HasFields, Get;
  }

  predicate TwoFields(v: Json) { v.JObject? && Get(v, "keyId").Some? && Get(v, "signature").Some? }

  lemma TwoFieldsExactly(v: Json)
    requires TwoFields(v)
    ensures HasFields(v, SIGNATURE_FIELDS) <==> |v.members| == 2
  {
    assert Less(SIGNATURE_FIELDS[0], SIGNATURE_FIELDS[1]);
    hide HasFields, Get, Less;
    FieldsExactly(v, SIGNATURE_FIELDS);
  }

  /** Sixteen entries at most, threshold many at least, each by another key, named in order. */
  ghost predicate SignedBy(p: Primitives, root: Root, payload: string, list: Json, ids: seq<string>) {
    && list.JArray? && root.threshold <= |list.items| <= 16 && |ids| == |list.items|
    && (forall i | 0 <= i < |ids| :: Signs(p, root, payload, list.items[i], ids[i]))
    && forall i, j | 0 <= i < j < |ids| :: ids[i] != ids[j]
  }

  lemma SignaturesExactly(p: Primitives, root: Root, payload: string, list: Json, ids: seq<string>)
    requires RootIsSound(root)
    ensures
      (&& list.JArray? && root.threshold <= |list.items| <= MAX_SIGNATURES
       && SignaturesOk(p, root, payload, list.items) && KeyIds(list.items) == ids)
      <==> SignedBy(p, root, payload, list, ids)
  {
    if list.JArray? && |ids| == |list.items| {
      forall i | 0 <= i < |ids|
        ensures SignatureOk(p, root, payload, list.items[i]) && KeyId(list.items[i]) == ids[i]
          <==> Signs(p, root, payload, list.items[i], ids[i])
      {
        SignatureExactly(p, root, payload, list.items[i], ids[i]);
      }
    }
    hide SignatureOk, Signs, KeyId, RootIsSound;
    if SignedBy(p, root, payload, list, ids) { assert KeyIds(list.items) == ids; }
  }

  /**
   * The policy meets the floor on a qualified platform, serves the asked origin and none beyond the root's,
   * and names its manifest.
   */
  predicate Serves(policy: MeasurementPolicy, root: Root, origin: Option<string>, manifest: string) {
    && policy.meetsFloor && policy.qualified && origin.Some?
    && origin.value in policy.origins && (forall o | o in policy.origins :: o in root.origins)
    && policy.source == "anonrouter-release-manifest-sha256:" + manifest
  }

  lemma PolicyExactly(policy: MeasurementPolicy, root: Root, origin: Option<string>, manifest: string)
    ensures PolicyOk(Some(policy), root, origin, manifest) <==> Serves(policy, root, origin, manifest)
  {}

  /** In force at this time, long enough after the root's first sequence, and not behind the last accepted one. */
  predicate InForce(root: Root, now: int, previous: Option<Checkpoint>, v: Verified) {
    && 0 <= v.issuedAtMs <= now < v.expiresAtMs && v.expiresAtMs - v.issuedAtMs <= root.maxLifetimeMs
    && root.minSequence <= v.sequence
    && match previous
       case None => true
       case Some(last) =>
         last.sequence < v.sequence || (last.sequence == v.sequence && last.payloadSha256 == v.payloadSha256)
  }

  /** The envelope wraps a signed payload that says what the approval says. */
  ghost predicate Grounds(p: Primitives, envelope: Json, root: Root, v: Verified) {
    exists payload, raw ::
      && Wraps(envelope, payload)
      && Says(p, payload, raw, root.authority, v.manifestSha256, v.sequence, v.issuedAtMs, v.expiresAtMs)
      && v.authority == root.authority && v.payloadSha256 == BytesToHex(p.sha256(Utf8.Encode(payload)))
      && p.load(Get(raw, "policy").value) == Some(v.policy)
      && SignedBy(p, root, payload, Get(envelope, "signatures").value, v.acceptedKeyIds)
  }

  /**
   * An approval is given exactly when the root is sound, the clock reads a safe time, the envelope grounds
   * the approval, it is in force, and its policy serves the asked origin.
   */
  lemma AcceptedExactly(p: Primitives, envelope: Json, root: Root, origin: string, now: int,
                        previous: Option<Checkpoint>, v: Verified)
    ensures Verify(p, envelope, root, origin, now, previous) == Some(v) <==>
      && RootIsSound(root) && 0 <= now <= 9007199254740991 && InForce(root, now, previous, v)
      && Grounds(p, envelope, root, v) && Serves(v.policy, root, p.canonicalOrigin(origin), v.manifestSha256)
  {
    RootExactly(root);
    hide *;
    if Verify(p, envelope, root, origin, now, previous) == Some(v) {
      AcceptedDeserves(p, envelope, root, origin, now, previous, v);
    }
    if RootIsSound(root) && 0 <= now <= 9007199254740991 && InForce(root, now, previous, v)
       && Grounds(p, envelope, root, v) && Serves(v.policy, root, p.canonicalOrigin(origin), v.manifestSha256) {
      DeservedIsAccepted(p, envelope, root, origin, now, previous, v);
    }
  }

  lemma AcceptedDeserves(p: Primitives, envelope: Json, root: Root, origin: string, now: int,
                         previous: Option<Checkpoint>, v: Verified)
    requires Verify(p, envelope, root, origin, now, previous) == Some(v)
    ensures RootIsSound(root) && 0 <= now <= 9007199254740991 && InForce(root, now, previous, v)
    ensures Grounds(p, envelope, root, v) && Serves(v.policy, root, p.canonicalOrigin(origin), v.manifestSha256)
  {
    hide ValidRoot, RootIsSound, EnvelopeOk, Wraps, PayloadCanonical, PayloadFieldsOk, Says, SignaturesOk, SignedBy;
    hide PolicyOk, Serves, Get, GetInteger, KeyIds;
    RootExactly(root);
    EnvelopeHasPayload(envelope);
    var payload := GetText(envelope, "payload").value;
    PayloadParses(p, payload);
    var raw := p.parse(payload).value;
    var list := Get(envelope, "signatures").value;
    PayloadHasFields(raw, root);
    var manifest := GetText(raw, "manifestSha256").value;
    PolicyLoads(p.load(Get(raw, "policy").value), root, p.canonicalOrigin(origin), manifest);
    EnvelopeExactly(envelope, payload);
    PayloadExactly(p, root, payload, raw, v.manifestSha256, v.sequence, v.issuedAtMs, v.expiresAtMs);
    SignaturesExactly(p, root, payload, list, v.acceptedKeyIds);
    PolicyExactly(v.policy, root, p.canonicalOrigin(origin), v.manifestSha256);
  }

  lemma DeservedIsAccepted(p: Primitives, envelope: Json, root: Root, origin: string, now: int,
                           previous: Option<Checkpoint>, v: Verified)
    requires RootIsSound(root) && 0 <= now <= 9007199254740991 && InForce(root, now, previous, v)
    requires Grounds(p, envelope, root, v) && Serves(v.policy, root, p.canonicalOrigin(origin), v.manifestSha256)
    ensures Verify(p, envelope, root, origin, now, previous) == Some(v)
  {
    hide ValidRoot, RootIsSound, EnvelopeOk, PayloadCanonical, PayloadFieldsOk, SignaturesOk, SignedBy;
    hide PolicyOk, Serves, Get, GetInteger, KeyIds, Canonical, Digits, Holds;
    RootExactly(root);
    var payload, raw :|
      && Wraps(envelope, payload)
      && Says(p, payload, raw, root.authority, v.manifestSha256, v.sequence, v.issuedAtMs, v.expiresAtMs)
      && v.authority == root.authority && v.payloadSha256 == BytesToHex(p.sha256(Utf8.Encode(payload)))
      && p.load(Get(raw, "policy").value) == Some(v.policy)
      && SignedBy(p, root, payload, Get(envelope, "signatures").value, v.acceptedKeyIds);
    var list := Get(envelope, "signatures").value;
    EnvelopeExactly(envelope, payload);
    PayloadExactly(p, root, payload, raw, v.manifestSha256, v.sequence, v.issuedAtMs, v.expiresAtMs);
    SignaturesExactly(p, root, payload, list, v.acceptedKeyIds);
    PolicyExactly(v.policy, root, p.canonicalOrigin(origin), v.manifestSha256);
  }
}
