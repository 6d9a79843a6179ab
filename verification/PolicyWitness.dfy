/** An envelope that is accepted: what the theorems about signed policies assume can be met. */
module PolicyWitness {
  import opened Wrappers
  import opened Numbers
  import opened Text
  import opened CanonicalJson
  import opened CanonicalDomain
  import opened JsonRecord
  import opened PolicyAuthority
  import opened PolicySource
  import Utf8

  const ORIGIN := "https://gateway.example"
  const ONES := Repeated('1', 64)
  const TWOS := Repeated('2', 64)
  const SIGNATURE := Repeated('0', 128)

  function Repeated(c: char, n: nat): (s: string)
    ensures |s| == n && forall d | d in s :: d == c
  {
    seq(n, _ => c)
  }

  const ROOT := Root(true, "a", true, [ORIGIN], true, 2, map["k1" := ONES, "k2" := TWOS], 1, 1000, 1, 1)

  const MEMBERS := [
    Field("authority", JString("a")), Field("expiresAtMs", JInt(2)), Field("issuedAtMs", JInt(0)),
    Field("manifestSha256", JString(ONES)), Field("policy", JNull),
    Field("schema", JString("anonrouter.gateway-policy/v1")), Field("sequence", JInt(1))]
  const RAW := JObject(true, MEMBERS)

  function Payload(): string {
    if Canonical(Policy, RAW, 0).Some? then Canonical(Policy, RAW, 0).value else ""
  }

  function Signed(keyId: string): Json {
    JObject(true, [Field("keyId", JString(keyId)), Field("signature", JString(SIGNATURE))])
  }

  function Envelope(): Json {
    JObject(true, [
      Field("payload", JString(Payload())), Field("schema", JString("anonrouter.gateway-policy-envelope/v1")),
      Field("signatures", JArray([Signed("k1"), Signed("k2")]))])
  }

  const LOADED := MeasurementPolicy([ORIGIN], "anonrouter-release-manifest-sha256:" + ONES, true, true)

  function World(): Primitives {
    Primitives(_ => Some(RAW), _ => [], (_, _, _) => true, _ => Some(LOADED), origin => Some(origin))
  }

  // ---- Records with ascending keys ---------------------------------------------------------

  /** Ascending keys: sorting changes nothing, and each field is found under its key. */
  lemma AscendingRecord(members: seq<Field<Json>>)
    requires NeighboursAscend(members)
    ensures SortFields(members) == members
    ensures forall i | 0 <= i < |members| :: Find(members, members[i].key) == Some(members[i].value)
  {
    NeighboursSuffice(members);
    SortKeepsAscending(members);
    forall j, k | 0 <= j < k < |members| ensures members[j].key != members[k].key {
      LessTotal(members[j].key, members[k].key);
    }
    forall i | 0 <= i < |members| ensures Find(members, members[i].key) == Some(members[i].value) {
      FindAt(members, i);
    }
  }

  lemma SignedFields(keyId: string)
    ensures HasFields(Signed(keyId), SIGNATURE_FIELDS)
    ensures GetText(Signed(keyId), "keyId") == Some(keyId) && GetText(Signed(keyId), "signature") == Some(SIGNATURE)
  {
    var members := Signed(keyId).members;
    assert Less("keyId", "signature");
    hide Join, SortFields, Find, Less;
    AscendingRecord(members);
    assert members[0].key == "keyId" && members[1].key == "signature";
    assert Keys(members) == SIGNATURE_FIELDS;
  }

  lemma EnvelopeKeys()
    ensures Envelope().JObject? && NeighboursAscend(Envelope().members) && Keys(Envelope().members) == ENVELOPE_FIELDS
  {
    hide Payload, Signed;
    assert Less("payload", "schema") && Less("schema", "signatures") by {
      assert Less("chema", "ignatures");
      assert "schema"[1..] == "chema" && "signatures"[1..] == "ignatures";
    }
    hide Less;
    var members := Envelope().members;
    assert members[0].key == "payload" && members[1].key == "schema" && members[2].key == "signatures";
  }

  lemma EnvelopeFields()
    ensures HasFields(Envelope(), ENVELOPE_FIELDS)
    ensures GetText(Envelope(), "payload") == Some(Payload())
    ensures GetText(Envelope(), "schema") == Some("anonrouter.gateway-policy-envelope/v1")
    ensures Get(Envelope(), "signatures") == Some(JArray([Signed("k1"), Signed("k2")]))
  {
    hide Payload, Signed, Less, Join, SortFields, Find, NeighboursAscend;
    EnvelopeKeys();
    AscendingRecord(Envelope().members);
    var members := Envelope().members;
    assert members[0].key == "payload" && members[1].key == "schema" && members[2].key == "signatures";
  }

  lemma RawAscends()
    ensures NeighboursAscend(MEMBERS)
  {
    assert Less("schema", "sequence") by {
      assert Less("chema", "equence");
      assert "schema"[1..] == "chema" && "sequence"[1..] == "equence";
    }
    forall i | 0 <= i < |MEMBERS| - 1 ensures Less(MEMBERS[i].key, MEMBERS[i + 1].key) {
      if i < 5 { assert MEMBERS[i].key[0] < MEMBERS[i + 1].key[0]; }
    }
  }

  lemma RawKeys()
    ensures MEMBERS[0].key == "authority" && MEMBERS[1].key == "expiresAtMs" && MEMBERS[2].key == "issuedAtMs"
    ensures MEMBERS[3].key == "manifestSha256" && MEMBERS[4].key == "policy" && MEMBERS[5].key == "schema"
    ensures MEMBERS[6].key == "sequence" && |MEMBERS| == 7 && Keys(MEMBERS) == PAYLOAD_FIELDS
  {}

  lemma RawFields()
    ensures HasFields(RAW, PAYLOAD_FIELDS)
    ensures forall i | 0 <= i < 7 :: Get(RAW, MEMBERS[i].key) == Some(MEMBERS[i].value)
  {
    hide Less, Keys, Join, SortFields, Find, NeighboursAscend;
    RawAscends();
    AscendingRecord(MEMBERS);
    RawKeys();
  }

  lemma RawIsAccepted()
    ensures PayloadFieldsOk(RAW, ROOT)
    ensures GetInteger(RAW, "issuedAtMs", 0) == Some(0) && GetInteger(RAW, "expiresAtMs", 0) == Some(2)
    ensures GetText(RAW, "manifestSha256") == Some(ONES) && Get(RAW, "policy") == Some(JNull)
  {
    RawFields();
    hide HasFields, Find, Get;
    assert MEMBERS[0].key == "authority" && MEMBERS[1].key == "expiresAtMs" && MEMBERS[2].key == "issuedAtMs";
    assert MEMBERS[3].key == "manifestSha256" && MEMBERS[4].key == "policy" && MEMBERS[5].key == "schema";
    assert MEMBERS[6].key == "sequence";
  }

  // ---- The payload text ------------------------------------------------------------------------

  lemma KeysAllowed(i: nat)
    requires i < 7
    ensures AllowedText(Policy, MEMBERS[i].key)
  {
    RawKeys();
    hide Repeated;
    assert AllowedText(Policy, "authority") && AllowedText(Policy, "expiresAtMs") && AllowedText(Policy, "issuedAtMs");
    assert AllowedText(Policy, "manifestSha256") && AllowedText(Policy, "policy") && AllowedText(Policy, "schema");
    assert AllowedText(Policy, "sequence");
  }

  lemma ValuesEncodable(i: nat)
    requires i < 7
    ensures Encodable(Policy, MEMBERS[i].value)
  {
    TextsArePlain();
    hide AllowedText, Plain, AllowedChar;
  }

  lemma TextsArePlain()
    ensures Plain(Policy, ONES) && Plain(Policy, "a") && Plain(Policy, "anonrouter.gateway-policy/v1")
  {
    assert AllowedText(Policy, "a") && AllowedText(Policy, "anonrouter.gateway-policy/v1");
    hide AllowedText, AllowedChar;
    PlainExactly(Policy, "a");
    PlainExactly(Policy, "anonrouter.gateway-policy/v1");
  }

  lemma RawIsEncodable()
    ensures Canonical(Policy, RAW, 0) == Some(Payload())
  {
    hide Canonical, AllowedText, Plain;
    forall m | m in MEMBERS ensures Plain(Policy, m.key) && Encodable(Policy, m.value) {
      var i :| 0 <= i < 7 && MEMBERS[i] == m;
      KeysAllowed(i);
      PlainExactly(Policy, m.key);
      ValuesEncodable(i);
    }
    AcceptedExactly(Policy, RAW, 0);
  }

  predicate Short(f: Field<string>) { |f.key| <= 14 && |f.value| <= 400 }

  lemma {:induction false} EscapeTextIsShort(s: string)
    ensures |EscapeText(s)| <= 6 * |s|
  {
    if s != "" { EscapeTextIsShort(s[1..]); }
  }

  lemma MembersAreShort()
    ensures CanonicalMembers(Policy, MEMBERS, 1).Some?
    ensures forall f | f in CanonicalMembers(Policy, MEMBERS, 1).value :: Short(f)
  {
    hide *;
    PayloadText();
    RawIsEncodable();
    ObjectText(Policy, MEMBERS);
    forall i | 0 <= i < |MEMBERS| ensures |MEMBERS[i].key| <= 14 && ShortValue(MEMBERS[i].value) { ShortMember(i); }
    ShortMembers(MEMBERS);
  }

  lemma ShortMember(i: nat)
    requires i < |MEMBERS|
    ensures |MEMBERS[i].key| <= 14 && ShortValue(MEMBERS[i].value)
  {
    RawKeys();
  }

  /** The text of an accepted object. */
  lemma ObjectText(p: Profile, members: seq<Field<Json>>)
    requires Canonical(p, JObject(true, members), 0).Some?
    ensures CanonicalMembers(p, members, 1).Some?
    ensures Canonical(p, JObject(true, members), 0).value
      == "{" + Join(MemberTexts(SortFields(CanonicalMembers(p, members, 1).value)), ",") + "}"
  {
    hide CanonicalMembers, SortFields, Join;
  }

  /** A value whose text is short. */
  predicate ShortValue(v: Json) { v.JNull? || (v.JString? && |v.text| <= 64) || (v.JInt? && 0 <= v.n < 10) }

  lemma ShortValueText(v: Json)
    requires ShortValue(v) && Canonical(Policy, v, 1).Some?
    ensures |Canonical(Policy, v, 1).value| <= 400
  {
    if v.JString? { EscapeTextIsShort(v.text); }
  }

  lemma {:induction false} ShortMembers(members: seq<Field<Json>>)
    requires CanonicalMembers(Policy, members, 1).Some?
    requires forall i | 0 <= i < |members| :: |members[i].key| <= 14 && ShortValue(members[i].value)
    ensures forall f | f in CanonicalMembers(Policy, members, 1).value :: Short(f)
  {
    hide ShortValue, Canonical;
    if members != [] {
      ShortMembers(members[1..]);
      ShortValueText(members[0].value);
    }
  }

  lemma {:induction false} JoinIsShort(parts: seq<string>, bound: nat)
    requires forall i | 0 <= i < |parts| :: |parts[i]| <= bound
    ensures |Join(parts, ",")| <= |parts| * (bound + 1)
  {
    if |parts| > 1 {
      JoinIsShort(parts[1..], bound);
      assert |parts| * (bound + 1) == (|parts| - 1) * (bound + 1) + (bound + 1);
    }
  }

  lemma {:induction false} EncodingIsShort(s: string)
    ensures |Utf8.Encode(s)| <= 4 * |s|
  {
    hide Utf8.EncodeChar;
    if s != "" { EncodingIsShort(s[1..]); }
  }

  lemma PayloadIsShort()
    ensures |Utf8.Encode(Payload())| <= MAX_POLICY_BYTES
  {
    hide Canonical, CanonicalMembers, SortFields, MemberTexts, Join, Short, Payload, Utf8.Encode;
    PayloadText();
    RawIsEncodable();
    ObjectText(Policy, MEMBERS);
    MembersAreShort();
    var fields := CanonicalMembers(Policy, MEMBERS, 1).value;
    TextsAreShort(fields);
    var texts := MemberTexts(SortFields(fields));
    JoinIsShort(texts, 500);
    EncodingIsShort(Payload());
    assert |texts| == 7 by { assert |multiset(SortFields(fields))| == |multiset(fields)|; }
  }

  lemma PayloadText()
    ensures RAW == JObject(true, MEMBERS)
    ensures CanonicalMembers(Policy, MEMBERS, 1).Some? ==> |CanonicalMembers(Policy, MEMBERS, 1).value| == 7
  {
    hide CanonicalMembers;
  }

  lemma TextsAreShort(fields: seq<Field<string>>)
    requires forall f | f in fields :: Short(f)
    ensures forall i | 0 <= i < |MemberTexts(SortFields(fields))| :: |MemberTexts(SortFields(fields))[i]| <= 500
  {
    hide SortFields, EscapeText;
    var sorted := SortFields(fields);
    forall i | 0 <= i < |sorted| ensures |MemberTexts(sorted)[i]| <= 500 {
      assert sorted[i] in multiset(sorted);
      assert sorted[i] in fields;
      EscapeTextIsShort(sorted[i].key);
    }
  }

  // ---- The witness -----------------------------------------------------------------------------

  lemma RootIsValid()
    ensures ValidRoot(ROOT)
  {
    KeyIdsDiffer();
    assert |ROOT.keys| == |ROOT.keys.Keys| == 2;
    assert ONES[0] != TWOS[0];
  }

  lemma SignatureIsOk(keyId: string)
    requires keyId in ROOT.keys && IsHex(ROOT.keys[keyId])
    ensures SignatureOk(World(), ROOT, Payload(), Signed(keyId)) && KeyId(Signed(keyId)) == keyId
  {
    hide Payload, Signed, HasFields, GetText;
    SignedFields(keyId);
  }

  lemma KeyIdsDiffer()
    ensures "k1" != "k2" && ROOT.keys.Keys == {"k1", "k2"} && IsHex(ROOT.keys["k1"]) && IsHex(ROOT.keys["k2"])
  {
    assert "k1"[1] != "k2"[1];
  }

  lemma SignaturesAreOk()
    ensures SignaturesOk(World(), ROOT, Payload(), [Signed("k1"), Signed("k2")])
  {
    KeyIdsDiffer();
    hide SignatureOk, Payload, Signed, IsHex, KeyId, World;
    SignatureIsOk("k1");
    SignatureIsOk("k2");
  }

  /** Some signed envelope is accepted, at some clock reading, for some origin. */
  lemma AcceptableEnvelopeExists()
    ensures Verify(World(), Envelope(), ROOT, ORIGIN, 1, None).Some?
  {
    RootIsValid();
    EnvelopeFields();
    RawIsAccepted();
    RawIsEncodable();
    PayloadIsShort();
    SignaturesAreOk();
    hide ValidRoot, HasFields, Get, GetText, GetInteger, Canonical, Payload,
         SignaturesOk, PayloadFieldsOk, Envelope, KeyIds;
  }

  /**
   * An empty source that fetches an acceptable envelope answers with its approval, if it is still
   * timely at the end.
   */
  lemma FirstAnswer(p: Primitives, root: Root, c: Call, envelope: Json)
    requires !c.aborted && c.answer == Answered(Publication(envelope)) && c.stored
    requires c.stale - c.refreshed <= root.maxStaleMs && c.returned == c.checked
    requires Verify(p, envelope, root, c.origin, c.checked, None).Some?
    ensures ResolveStep(p, root, Memory(None, None), c).1 == Verify(p, envelope, root, c.origin, c.checked, None)
  {
    hide Verify, Timely, PolicyOk, SafeAtLeast;
    var v := Verify(p, envelope, root, c.origin, c.checked, None).value;
    SameButForTime(p, envelope, root, c.origin, c.checked, None, c.origin, c.returned, Noted(v));
    VerifiedIsFresh(p, envelope, root, c.origin, c.checked, None);
    PolicyCovers(p, envelope, root, c.origin, c.checked, None);
  }

  lemma PolicyCovers(p: Primitives, envelope: Json, root: Root, origin: string, now: int, previous: Option<Checkpoint>)
    requires Verify(p, envelope, root, origin, now, previous).Some?
    ensures var v := Verify(p, envelope, root, origin, now, previous).value;
      SafeAtLeast(now, 0) && PolicyOk(Some(v.policy), root, p.canonicalOrigin(origin), v.manifestSha256)
  {
    PolicyHere(p, envelope, root, origin, now, previous);
    hide SignaturesOk, PayloadCanonical, PayloadFieldsOk, PolicyOk, ValidRoot, EnvelopeOk, Timely, NoRollback, KeyIds;
  }

  /** So some call of some source is answered with an approval. */
  lemma SourceAnswers()
    ensures ResolveStep(World(), ROOT, Memory(None, None),
                        Call(ORIGIN, false, false, 1, Answered(Publication(Envelope())), 1, 1, 1, true, 1)).1.Some?
  {
    hide Verify, World, Envelope, ResolveStep;
    AcceptableEnvelopeExists();
    FirstAnswer(World(), ROOT,
                Call(ORIGIN, false, false, 1, Answered(Publication(Envelope())), 1, 1, 1, true, 1),
                Envelope());
  }
}
