/**
 * Release policy v3 digests. SHA-256 is an arbitrary function, so a result says
 * "the inputs agree, or these two different texts collide".
 */
module ReleaseDigest {
  import opened Wrappers
  import opened Text
  import opened CanonicalJson
  import opened CanonicalRoundTrip
  import Utf8

  type Hash = seq<Byte> -> seq<Byte>

  const DIGEST_PROTOCOL := "anonrouter-content-node-bootstrap-v1"

  ghost predicate Collide(hash: Hash, x: seq<Byte>, y: seq<Byte>) { x != y && hash(x) == hash(y) }

  /** The bytes releaseDigestHex hashes. */
  function Preimage(domain: string, text: string): seq<Byte> {
    Utf8.Encode(DIGEST_PROTOCOL + "/" + domain + "\0") + Utf8.Encode(text)
  }

  function ReleaseDigestHex(hash: Hash, domain: string, value: Json): Option<string> {
    match Canonical(Release, value, 0)
    case None => None
    case Some(text) => Some(BytesToHex(hash(Preimage(domain, text))))
  }

  /** What is hashed: the protocol and the domain, a zero byte, and the canonical text. */
  lemma DigestExactly(hash: Hash, domain: string, value: Json)
    ensures ReleaseDigestHex(hash, domain, value).Some? <==> Canonical(Release, value, 0).Some?
    ensures Canonical(Release, value, 0).Some? ==>
      ReleaseDigestHex(hash, domain, value) == Some(BytesToHex(hash(
        Utf8.Encode("anonrouter-content-node-bootstrap-v1/" + domain) + [0]
        + Utf8.Encode(Canonical(Release, value, 0).value))))
  {
    hide Canonical, Utf8.Encode;
    Utf8.EncodeConcat(DIGEST_PROTOCOL + "/" + domain, "\0");
    EncodeNul();
    assert DIGEST_PROTOCOL + "/" == "anonrouter-content-node-bootstrap-v1/";
  }

  lemma EncodeNul()
    ensures Utf8.Encode("\0") == [0]
  {
    assert Utf8.Encode("\0"[1..]) == [];
  }

  /** A NUL-free domain ends at the first NUL. */
  lemma {:induction false} SplitAtNul(d1: string, t1: string, d2: string, t2: string)
    requires '\0' !in d1 && '\0' !in d2
    requires d1 + "\0" + t1 == d2 + "\0" + t2
    ensures d1 == d2 && t1 == t2
  {
    var s1, s2 := d1 + "\0" + t1, d2 + "\0" + t2;
    assert s1[|d1|] == '\0' && s2[|d2|] == '\0';
    assert forall i | 0 <= i < |d1| :: s1[i] == d1[i];
    assert forall i | 0 <= i < |d2| :: s2[i] == d2[i];
    assert d1 == s1[..|d1|] && d2 == s2[..|d2|];
    assert t1 == s1[|d1| + 1..] && t2 == s2[|d2| + 1..];
  }

  lemma PreimageInjective(d1: string, t1: string, d2: string, t2: string)
    requires '\0' !in d1 && '\0' !in d2
    ensures Preimage(d1, t1) == Preimage(d2, t2) ==> d1 == d2 && t1 == t2
  {
    hide Utf8.Encode;
    var p := DIGEST_PROTOCOL + "/";
    Utf8.EncodeConcat(p + d1 + "\0", t1);
    Utf8.EncodeConcat(p + d2 + "\0", t2);
    if Preimage(d1, t1) == Preimage(d2, t2) {
      Utf8.EncodeInjective(p + d1 + "\0" + t1, p + d2 + "\0" + t2);
      hide *;
      DropPrefix(p, d1, t1);
      DropPrefix(p, d2, t2);
      SplitAtNul(d1, t1, d2, t2);
    }
  }

  lemma DropPrefix(p: string, d: string, t: string)
    ensures (p + d + "\0" + t)[|p|..] == d + "\0" + t
  {}

  lemma HexEqual(x: seq<Byte>, y: seq<Byte>)
    ensures BytesToHex(x) == BytesToHex(y) <==> x == y
  {
    BytesOfHexOfBytes(x);
    BytesOfHexOfBytes(y);
  }

  /** Equal digests: the same domain and data, or a SHA-256 collision between the two preimages. */
  lemma DigestBinds(hash: Hash, d1: string, v1: Json, d2: string, v2: Json)
    requires '\0' !in d1 && '\0' !in d2 && DistinctKeys(v1) && DistinctKeys(v2)
    requires ReleaseDigestHex(hash, d1, v1).Some? && ReleaseDigestHex(hash, d2, v2).Some?
    ensures ReleaseDigestHex(hash, d1, v1) == ReleaseDigestHex(hash, d2, v2) <==>
      || (d1 == d2 && SameData(v1, v2))
      || Collide(hash, Preimage(d1, Canonical(Release, v1, 0).value), Preimage(d2, Canonical(Release, v2, 0).value))
  {
    var t1, t2 := Canonical(Release, v1, 0).value, Canonical(Release, v2, 0).value;
    HexEqual(hash(Preimage(d1, t1)), hash(Preimage(d2, t2)));
    PreimageInjective(d1, t1, d2, t2);
    CanonicalTextIdentifiesData(Release, v1, v2, 0);
  }

  // ---- Measured tuples -------------------------------------------------------------

  datatype Registers = Registers(
    mrTd: string, mrConfigId: string, mrOwner: string, mrOwnerConfig: string,
    rtmr0: string, rtmr1: string, rtmr2: string, rtmr3: string,
    tdAttributes: string, xfam: string)

  datatype MrOwnerRule = MrOwnerRule(kind: string, projectNumber: string, zones: seq<string>)

  const REGISTER_FIELDS := ["mrTd", "mrConfigId", "mrOwner", "mrOwnerConfig",
                            "rtmr0", "rtmr1", "rtmr2", "rtmr3", "tdAttributes", "xfam"]

  /** registers[REGISTER_FIELDS[i]] */
  function RegisterAt(r: Registers, i: nat): string
    requires i < 10
  {
    match i
    case 0 => r.mrTd
    case 1 => r.mrConfigId
    case 2 => r.mrOwner
    case 3 => r.mrOwnerConfig
    case 4 => r.rtmr0
    case 5 => r.rtmr1
    case 6 => r.rtmr2
    case 7 => r.rtmr3
    case 8 => r.tdAttributes
    case _ => r.xfam
  }

  function StringArray(texts: seq<string>): Json {
    JArray(seq(|texts|, i requires 0 <= i < |texts| => JString(texts[i])))
  }

  function RuleRecord(rule: MrOwnerRule): Json {
    JObject(true, [Field("kind", JString(rule.kind)),
                   Field("projectNumber", JString(rule.projectNumber)),
                   Field("zones", StringArray(rule.zones))])
  }

  /** The record without a label that the tuple digest covers. */
  function TupleMembers(r: Registers, rule: Option<MrOwnerRule>): (members: seq<Field<Json>>)
    ensures |members| == if rule.Some? then 11 else 10
  {
    seq(10, i requires 0 <= i < 10 => Field(REGISTER_FIELDS[i], JString(RegisterAt(r, i))))
    + (if rule.Some? then [Field("mrOwnerRule", RuleRecord(rule.value))] else [])
  }

  function TupleRecord(r: Registers, rule: Option<MrOwnerRule>): Json { JObject(true, TupleMembers(r, rule)) }

  /** releaseTupleDigest, with the loop that fills the unlabeled record. */
  method ReleaseTupleDigest(hash: Hash, r: Registers, rule: Option<MrOwnerRule>) returns (digest: Option<string>)
    ensures digest == ReleaseDigestHex(hash, "measured-tuple", TupleRecord(r, rule))
  {
    var unlabeled: seq<Field<Json>> := [];
    for i := 0 to |REGISTER_FIELDS|
      invariant |unlabeled| == i
      invariant forall k | 0 <= k < i :: unlabeled[k] == Field(REGISTER_FIELDS[k], JString(RegisterAt(r, k)))
    {
      unlabeled := unlabeled + [Field(REGISTER_FIELDS[i], JString(RegisterAt(r, i)))];
    }
    if rule.Some? {
      unlabeled := unlabeled + [Field("mrOwnerRule", RuleRecord(rule.value))];
    }
    assert unlabeled == TupleMembers(r, rule);
    digest := ReleaseDigestHex(hash, "measured-tuple", JObject(true, unlabeled));
  }

  /** The record lists the ten registers by name, in this order, then the rule if there is one. */
  lemma TupleListsRegisters(r: Registers, rule: Option<MrOwnerRule>)
    ensures TupleMembers(r, rule)[..10]
      == [Field("mrTd", JString(r.mrTd)), Field("mrConfigId", JString(r.mrConfigId)),
          Field("mrOwner", JString(r.mrOwner)), Field("mrOwnerConfig", JString(r.mrOwnerConfig)),
          Field("rtmr0", JString(r.rtmr0)), Field("rtmr1", JString(r.rtmr1)), Field("rtmr2", JString(r.rtmr2)),
          Field("rtmr3", JString(r.rtmr3)), Field("tdAttributes", JString(r.tdAttributes)),
          Field("xfam", JString(r.xfam))]
    ensures rule.Some? ==> TupleMembers(r, rule)[10] == Field("mrOwnerRule", RuleRecord(rule.value))
  {}

  lemma FieldNamesDiffer()
    ensures forall i, j | 0 <= i < j < 10 :: REGISTER_FIELDS[i] != REGISTER_FIELDS[j]
    ensures forall i | 0 <= i < 10 :: REGISTER_FIELDS[i] != "mrOwnerRule"
  {
    forall i, j | 0 <= i < j < 10 ensures REGISTER_FIELDS[i] != REGISTER_FIELDS[j] {
      if 4 <= i && j < 8 {
        assert REGISTER_FIELDS[i][4] != REGISTER_FIELDS[j][4];
      } else {
        assert |REGISTER_FIELDS[i]| != |REGISTER_FIELDS[j]| || REGISTER_FIELDS[i][0] != REGISTER_FIELDS[j][0];
      }
    }
  }

  lemma TupleKeysDistinct(r: Registers, rule: Option<MrOwnerRule>)
    ensures DistinctKeys(TupleRecord(r, rule))
  {
    FieldNamesDiffer();
    if rule.Some? {
      var members := [Field("kind", JString(rule.value.kind)),
                      Field("projectNumber", JString(rule.value.projectNumber)),
                      Field("zones", StringArray(rule.value.zones))];
      assert |members[0].key| == 4 && |members[1].key| == 13 && |members[2].key| == 5;
      assert DistinctKeys(StringArray(rule.value.zones));
      assert DistinctKeys(RuleRecord(rule.value));
    }
  }

  lemma SameMember(v: Json, w: Json, i: nat)
    requires v.JObject? && w.JObject? && SameData(v, w) && i < |v.members|
    requires i < |w.members| && w.members[i].key == v.members[i].key
    requires forall j | 0 <= j < |w.members| && j != i :: w.members[j].key != v.members[i].key
    ensures SameData(v.members[i].value, w.members[i].value)
  {
    assert v.members[i] in v.members;
  }

  lemma RuleKeys(rule: MrOwnerRule)
    ensures var v := RuleRecord(rule);
      v.JObject? && |v.members| == 3
      && v.members[0].key == "kind" && v.members[1].key == "projectNumber" && v.members[2].key == "zones"
  {}

  lemma RuleKeysDiffer()
    ensures "kind" != "projectNumber" && "kind" != "zones" && "projectNumber" != "zones"
  {
    assert |"kind"| == 4 && |"projectNumber"| == 13 && |"zones"| == 5;
  }

  /** One field of the rule agrees. */
  lemma SameRuleField(rule1: MrOwnerRule, rule2: MrOwnerRule, i: nat)
    requires SameData(RuleRecord(rule1), RuleRecord(rule2)) && i < 3
    ensures RuleRecord(rule1).JObject? && RuleRecord(rule2).JObject?
    ensures |RuleRecord(rule1).members| == |RuleRecord(rule2).members| == 3
    ensures SameData(RuleRecord(rule1).members[i].value, RuleRecord(rule2).members[i].value)
  {
    hide SameData, RuleRecord;
    RuleKeys(rule1);
    RuleKeys(rule2);
    RuleKeysDiffer();
    SameMember(RuleRecord(rule1), RuleRecord(rule2), i);
  }

  lemma SameRule(rule1: MrOwnerRule, rule2: MrOwnerRule)
    requires SameData(RuleRecord(rule1), RuleRecord(rule2))
    ensures rule1 == rule2
  {
    hide SameData, StringArray;
    SameRuleField(rule1, rule2, 0);
    SameStrings(rule1.kind, rule2.kind);
    SameRuleField(rule1, rule2, 1);
    SameStrings(rule1.projectNumber, rule2.projectNumber);
    SameRuleField(rule1, rule2, 2);
    SameStringArrays(rule1.zones, rule2.zones);
  }

  lemma SameStrings(s: string, t: string)
    requires SameData(JString(s), JString(t))
    ensures s == t
  {}

  lemma SameStringArrays(s: seq<string>, t: seq<string>)
    requires SameData(StringArray(s), StringArray(t))
    ensures s == t
  {
    var xs, ys := StringArray(s).items, StringArray(t).items;
    assert |xs| == |ys| && forall i | 0 <= i < |xs| :: SameData(xs[i], ys[i]);
    forall i | 0 <= i < |s| ensures s[i] == t[i] {
      assert SameData(xs[i], ys[i]);
      SameStrings(s[i], t[i]);
    }
  }

  lemma SameTuple(r1: Registers, rule1: Option<MrOwnerRule>, r2: Registers, rule2: Option<MrOwnerRule>)
    requires SameData(TupleRecord(r1, rule1), TupleRecord(r2, rule2))
    ensures r1 == r2 && rule1 == rule2
  {
    FieldNamesDiffer();
    var v, w := TupleRecord(r1, rule1), TupleRecord(r2, rule2);
    assert |v.members| == |w.members|;
    hide SameData;
    forall i | 0 <= i < 10 ensures RegisterAt(r1, i) == RegisterAt(r2, i) {
      SameMember(v, w, i);
      SameStrings(RegisterAt(r1, i), RegisterAt(r2, i));
    }
    RegistersEqual(r1, r2);
    if rule1.Some? {
      SameMember(v, w, 10);
      SameRule(rule1.value, rule2.value);
    }
  }

  lemma RegistersEqual(r1: Registers, r2: Registers)
    requires forall i | 0 <= i < 10 :: RegisterAt(r1, i) == RegisterAt(r2, i)
    ensures r1 == r2
  {
    assert RegisterAt(r1, 0) == RegisterAt(r2, 0) && RegisterAt(r1, 1) == RegisterAt(r2, 1);
    assert RegisterAt(r1, 2) == RegisterAt(r2, 2) && RegisterAt(r1, 3) == RegisterAt(r2, 3);
    assert RegisterAt(r1, 4) == RegisterAt(r2, 4) && RegisterAt(r1, 5) == RegisterAt(r2, 5);
    assert RegisterAt(r1, 6) == RegisterAt(r2, 6) && RegisterAt(r1, 7) == RegisterAt(r2, 7);
    assert RegisterAt(r1, 8) == RegisterAt(r2, 8) && RegisterAt(r1, 9) == RegisterAt(r2, 9);
  }

  /** A tuple digest names its ten registers and its rule, or exhibits a collision. */
  lemma TupleDigestBinds(hash: Hash, r1: Registers, rule1: Option<MrOwnerRule>, r2: Registers,
                         rule2: Option<MrOwnerRule>)
    requires Canonical(Release, TupleRecord(r1, rule1), 0).Some?
    requires Canonical(Release, TupleRecord(r2, rule2), 0).Some?
    ensures (ReleaseDigestHex(hash, "measured-tuple", TupleRecord(r1, rule1))
          == ReleaseDigestHex(hash, "measured-tuple", TupleRecord(r2, rule2))) <==>
      || (r1 == r2 && rule1 == rule2)
      || Collide(hash, Preimage("measured-tuple", Canonical(Release, TupleRecord(r1, rule1), 0).value),
                       Preimage("measured-tuple", Canonical(Release, TupleRecord(r2, rule2), 0).value))
  {
    hide Canonical;
    hide Preimage;
    hide SameData;
    var v, w := TupleRecord(r1, rule1), TupleRecord(r2, rule2);
    hide TupleRecord;
    TupleKeysDistinct(r1, rule1);
    TupleKeysDistinct(r2, rule2);
    DigestBinds(hash, "measured-tuple", v, "measured-tuple", w);
    if SameData(v, w) {
      SameTuple(r1, rule1, r2, rule2);
    } else {
      SameDataMeansSameNorm(v, w);
    }
  }
}
