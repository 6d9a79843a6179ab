/** The attestation binding: normalization, and the fixed-order JSON that report_data hashes. */
module GatewayBinding {
  import opened Wrappers
  import opened Text
  import opened CanonicalJson
  import opened CanonicalRoundTrip
  import opened JsonRecord
  import opened FlatJson
  import Utf8

  datatype Url = Url(origin: string, web: bool, bare: bool)   // web: http(s); bare: nothing but scheme, host and port

  type UrlParser = string -> Option<Url>

  datatype Binding = Binding(
    nonce: string, appId: string, instanceId: string, composeHash: string, releaseId: string,
    origin: string, keyAlg: string, publicKey: string, transport: string, tlsSpki: Option<string>)

  const VERSION := 1
  const FIELDS := ["v", "nonce", "app_id", "instance_id", "compose_hash", "release_id", "origin",
                   "key_alg", "public_key", "transport", "tls_spki_sha256"]
  const IN_TEE := "in-tee-tls"
  const IN_FRONT := "gateway-tls"

  predicate LowerHexText(s: string) { s != "" && forall c | c in s :: IsHexDigit(c) }

  /** requireLowercaseHex, with an exact length or the general bound. */
  function RequireHex(s: string, exact: Option<nat>): Option<string> {
    if !LowerHexText(s) then None
    else if exact.Some? then (if |s| == exact.value then Some(s) else None)
    else if |s| > 512 then None else Some(s)
  }

  /** A text field lowered, stripped of one 0x if asked, and required to be hex. */
  function HexField(raw: Json, key: string, strip: bool, exact: Option<nat>): Option<string> {
    match GetText(raw, key)
    case None => None
    case Some(s) => RequireHex(if strip then Strip(Lower(s)) else Lower(s), exact)
  }

  function CanonicalOrigin(url: UrlParser, value: string): Option<string> {
    if value == "" || |value| > 253 + 16 then None
    else match url(value)
      case None => None
      case Some(u) =>
        if !u.web || !u.bare then None
        else if u.origin != (if value[|value| - 1] == '/' then value[..|value| - 1] else value) then None
        else Some(u.origin)
  }

  predicate ReleaseChar(c: char) {
    'A' <= c <= 'Z' || 'a' <= c <= 'z' || '0' <= c <= '9'
    || c == '.' || c == '_' || c == ':' || c == '@' || c == '+' || c == '-'
  }

  predicate ReleaseText(s: string) { 1 <= |s| <= 128 && forall c | c in s :: ReleaseChar(c) }

  predicate KnownFields(raw: Json) { raw.JObject? && forall m | m in raw.members :: m.key in FIELDS }

  /** The SPKI field: present, null or a digest, and null exactly when the TD does not own the transport. */
  function SpkiField(raw: Json): Option<Option<string>> {
    match Get(raw, "tls_spki_sha256")
    case Some(JNull) => if GetText(raw, "transport") == Some(IN_TEE) then None else Some(None)
    case Some(JString(_)) =>
      var digest := HexField(raw, "tls_spki_sha256", false, Some(64));
      if digest.None? || GetText(raw, "transport") == Some(IN_FRONT) then None else Some(digest)
    case _ => None
  }

  /** normalizeGatewayBinding; None where it throws. */
  function Normalize(url: UrlParser, raw: Json): Option<Binding> {
    if !KnownFields(raw) || Get(raw, "v") != Some(JInt(VERSION)) then None
    else match (GetText(raw, "key_alg"), GetText(raw, "release_id"), GetText(raw, "transport"),
                     SpkiField(raw), GetText(raw, "origin"))
      case (Some(keyAlg), Some(releaseId), Some(transport), Some(tlsSpki), Some(origin)) =>
        if keyAlg !in ["x25519", "ed25519", "secp256k1"] || !ReleaseText(releaseId) || transport !in [IN_TEE, IN_FRONT]
          then None
        else
          (match (HexField(raw, "nonce", false, Some(64)), HexField(raw, "app_id", true, None),
                  HexField(raw, "instance_id", true, None),
                  HexField(raw, "compose_hash", true, Some(64)), CanonicalOrigin(url, origin),
                  HexField(raw, "public_key", true, None))
           case (Some(nonce), Some(appId), Some(instanceId), Some(composeHash), Some(canonical), Some(publicKey)) =>
             Some(Binding(nonce, appId, instanceId, composeHash, releaseId, canonical,
                          keyAlg, publicKey, transport, tlsSpki))
           case _ => None)
      case _ => None
  }

  // ---- What a normalized binding is ------------------------------------------------------------

  predicate Short(s: string) { |s| <= 512 }

  /** Every field of a result is in its canonical form. */
  ghost predicate Normal(url: UrlParser, b: Binding) {
    && LowerHexText(b.nonce) && |b.nonce| == 64
    && LowerHexText(b.appId) && Short(b.appId) && LowerHexText(b.instanceId) && Short(b.instanceId)
    && LowerHexText(b.composeHash) && |b.composeHash| == 64
    && ReleaseText(b.releaseId) && b.keyAlg in ["x25519", "ed25519", "secp256k1"]
    && LowerHexText(b.publicKey) && Short(b.publicKey)
    && b.transport in [IN_TEE, IN_FRONT]
    && (b.tlsSpki.Some? <==> b.transport == IN_TEE)
    && (b.tlsSpki.Some? ==> LowerHexText(b.tlsSpki.value) && |b.tlsSpki.value| == 64)
    && CanonicalOrigin(url, b.origin) == Some(b.origin)
  }

  /** The fields of a binding, as the object it is holds them. */
  function Members(b: Binding): (members: seq<Field<Json>>)
    ensures AllFlat(members)
  {
    [Field("v", JInt(VERSION)), Field("nonce", JString(b.nonce)), Field("app_id", JString(b.appId)),
     Field("instance_id", JString(b.instanceId)), Field("compose_hash", JString(b.composeHash)),
     Field("release_id", JString(b.releaseId)), Field("origin", JString(b.origin)), Field("key_alg", JString(b.keyAlg)),
     Field("public_key", JString(b.publicKey)), Field("transport", JString(b.transport)),
     Field("tls_spki_sha256", if b.tlsSpki.Some? then JString(b.tlsSpki.value) else JNull)]
  }

  function ToJson(b: Binding): Json { JObject(true, Members(b)) }

  /** What URL parsing guarantees about origins: no trailing slash, and one after a bare origin does not matter. */
  ghost predicate ParsesOrigins(url: UrlParser) {
    && (forall v :: url(v).Some? ==> url(v).value.origin != "" && url(v).value.origin[|url(v).value.origin| - 1] != '/')
    && (forall o :: url(o + "/").Some? && url(o + "/").value.bare && url(o + "/").value.origin == o
            ==> url(o) == url(o + "/"))
  }

  lemma OriginIsStable(url: UrlParser, value: string)
    requires ParsesOrigins(url) && CanonicalOrigin(url, value).Some?
    ensures CanonicalOrigin(url, CanonicalOrigin(url, value).value) == CanonicalOrigin(url, value)
  {
    var o := CanonicalOrigin(url, value).value;
    if value[|value| - 1] == '/' { assert value == o + "/"; }
  }

  lemma LowerHexIsStable(s: string)
    requires LowerHexText(s)
    ensures Lower(s) == s && Strip(s) == s
  {
    forall i | 0 <= i < |s| ensures Lower(s)[i] == s[i] { assert s[i] in s; }
    if |s| >= 2 { assert s[1] in s; }
  }

  lemma FieldNamesDiffer()
    ensures forall i, j | 0 <= i < j < 11 :: FIELDS[i] != FIELDS[j]
  {
    forall i, j | 0 <= i < j < 11 ensures FIELDS[i] != FIELDS[j] {
      assert |FIELDS[i]| != |FIELDS[j]| || FIELDS[i][0] != FIELDS[j][0];
    }
  }

  lemma HexFieldIsNormal(raw: Json, key: string, strip: bool, exact: Option<nat>)
    ensures var r := HexField(raw, key, strip, exact);
      r.Some? ==> LowerHexText(r.value) && (if exact.Some? then |r.value| == exact.value else Short(r.value))
  {
    hide LowerHexText;
  }

  /** Every result is in canonical form; in particular it names an SPKI exactly when the TD owns the transport. */
  lemma NormalizedIsNormal(url: UrlParser, raw: Json)
    requires ParsesOrigins(url) && Normalize(url, raw).Some?
    ensures Normal(url, Normalize(url, raw).value)
  {
    HexFieldIsNormal(raw, "nonce", false, Some(64));
    HexFieldIsNormal(raw, "app_id", true, None);
    HexFieldIsNormal(raw, "instance_id", true, None);
    HexFieldIsNormal(raw, "compose_hash", true, Some(64));
    HexFieldIsNormal(raw, "public_key", true, None);
    HexFieldIsNormal(raw, "tls_spki_sha256", false, Some(64));
    OriginIsStable(url, GetText(raw, "origin").value);
    hide LowerHexText, ReleaseText, CanonicalOrigin, HexField, KnownFields, Get, GetText, Short;
  }

  lemma JsonFields(b: Binding)
    ensures KnownFields(ToJson(b)) && Get(ToJson(b), "v") == Some(JInt(VERSION))
    ensures GetText(ToJson(b), "nonce") == Some(b.nonce) && GetText(ToJson(b), "app_id") == Some(b.appId)
    ensures GetText(ToJson(b), "instance_id") == Some(b.instanceId)
    ensures GetText(ToJson(b), "compose_hash") == Some(b.composeHash)
    ensures GetText(ToJson(b), "release_id") == Some(b.releaseId) && GetText(ToJson(b), "origin") == Some(b.origin)
    ensures GetText(ToJson(b), "key_alg") == Some(b.keyAlg) && GetText(ToJson(b), "public_key") == Some(b.publicKey)
    ensures GetText(ToJson(b), "transport") == Some(b.transport)
    ensures Get(ToJson(b), "tls_spki_sha256") == Some(if b.tlsSpki.Some? then JString(b.tlsSpki.value) else JNull)
  {
    hide Get, ToJson, KnownFields, AllFlat;
    JsonIsKnown(b);
    JsonFieldAt(b, 0);
    JsonFieldAt(b, 1);
    JsonFieldAt(b, 2);
    JsonFieldAt(b, 3);
    JsonFieldAt(b, 4);
    JsonFieldAt(b, 5);
    JsonFieldAt(b, 6);
    JsonFieldAt(b, 7);
    JsonFieldAt(b, 8);
    JsonFieldAt(b, 9);
    JsonFieldAt(b, 10);
  }

  lemma JsonIsKnown(b: Binding)
    ensures KnownFields(ToJson(b))
  {
    hide Get;
    forall m | m in Members(b) ensures m.key in FIELDS {
      var i :| 0 <= i < 11 && Members(b)[i] == m;
      JsonFieldAt(b, i);
      assert FIELDS[i] in FIELDS;
    }
  }

  lemma JsonFieldAt(b: Binding, i: nat)
    requires i < 11
    ensures Members(b)[i].key == FIELDS[i]
    ensures Get(ToJson(b), FIELDS[i]) == Some(Members(b)[i].value)
  {
    FieldNamesDiffer();
    var members := Members(b);
    assert forall k | 0 <= k < 11 :: members[k].key == FIELDS[k];
    FindAt(members, i);
  }

  lemma HexFieldHolds(raw: Json, key: string, strip: bool, exact: Option<nat>, s: string)
    requires GetText(raw, key) == Some(s) && LowerHexText(s) && (if exact.Some? then |s| == exact.value else Short(s))
    ensures HexField(raw, key, strip, exact) == Some(s)
  {
    hide GetText;
    LowerHexIsStable(s);
    hide LowerHexText, Lower, Strip;
  }

  lemma HexFieldsHold(url: UrlParser, b: Binding)
    requires Normal(url, b)
    ensures HexField(ToJson(b), "nonce", false, Some(64)) == Some(b.nonce)
    ensures HexField(ToJson(b), "app_id", true, None) == Some(b.appId)
    ensures HexField(ToJson(b), "instance_id", true, None) == Some(b.instanceId)
    ensures HexField(ToJson(b), "compose_hash", true, Some(64)) == Some(b.composeHash)
    ensures HexField(ToJson(b), "public_key", true, None) == Some(b.publicKey)
  {
    hide GetText, Get, ToJson, HexField, LowerHexText, Short, KnownFields, ReleaseText, CanonicalOrigin;
    JsonFields(b);
    HexFieldHolds(ToJson(b), "nonce", false, Some(64), b.nonce);
    HexFieldHolds(ToJson(b), "app_id", true, None, b.appId);
    HexFieldHolds(ToJson(b), "instance_id", true, None, b.instanceId);
    HexFieldHolds(ToJson(b), "compose_hash", true, Some(64), b.composeHash);
    HexFieldHolds(ToJson(b), "public_key", true, None, b.publicKey);
  }

  lemma SpkiFieldHolds(url: UrlParser, b: Binding)
    requires Normal(url, b)
    ensures SpkiField(ToJson(b)) == Some(b.tlsSpki)
  {
    hide Get, ToJson, HexField, LowerHexText, KnownFields, ReleaseText, CanonicalOrigin, Short;
    JsonFields(b);
    assert IN_TEE != IN_FRONT by { assert |IN_TEE| == 10 && |IN_FRONT| == 11; }
    if b.tlsSpki.Some? { HexFieldHolds(ToJson(b), "tls_spki_sha256", false, Some(64), b.tlsSpki.value); }
  }

  lemma NormalIsFixed(url: UrlParser, b: Binding)
    requires Normal(url, b)
    ensures Normalize(url, ToJson(b)) == Some(b)
  {
    hide GetText, Get, ToJson, HexField, LowerHexText, Short, KnownFields, ReleaseText, CanonicalOrigin, SpkiField;
    JsonFields(b);
    HexFieldsHold(url, b);
    SpkiFieldHolds(url, b);
  }

  /** A binding is its own normal form exactly when it is in canonical form. */
  lemma NormalExactlyWhenFixed(url: UrlParser, b: Binding)
    requires ParsesOrigins(url)
    ensures Normalize(url, ToJson(b)) == Some(b) <==> Normal(url, b)
  {
    hide *;
    if Normalize(url, ToJson(b)) == Some(b) { NormalizedIsNormal(url, ToJson(b)); }
    if Normal(url, b) { NormalIsFixed(url, b); }
  }

  /** Normalizing a result again changes nothing. */
  lemma NormalizeIsIdempotent(url: UrlParser, raw: Json)
    requires ParsesOrigins(url) && Normalize(url, raw).Some?
    ensures Normalize(url, ToJson(Normalize(url, raw).value)) == Normalize(url, raw)
  {
    NormalizedIsNormal(url, raw);
    NormalExactlyWhenFixed(url, Normalize(url, raw).value);
  }

  // ---- What normalizing does ------------------------------------------------------------------

  /** The text held under the key spells this lowercase hex in any case, with one 0x before it where that is allowed. */
  ghost predicate Spells(raw: Json, key: string, prefix: bool, value: string) {
    && (forall c | c in value :: '0' <= c <= '9' || 'a' <= c <= 'f') && value != ""
    && exists text :: Get(raw, key) == Some(JString(text))
         && (SameUpToCase(text, value) || (prefix && SameUpToCase(text, "0x" + value)))
  }

  /** The second text is the first with capital letters A to Z made small. */
  predicate SameUpToCase(text: string, small: string) {
    |text| == |small|
    && forall i | 0 <= i < |text| ::
         small[i] == if 'A' <= text[i] <= 'Z' then (text[i] as int + 32) as char else text[i]
  }

  /** The origin is what the held text parses to, and the text is that origin, perhaps with one slash after it. */
  ghost predicate NamesOrigin(url: UrlParser, raw: Json, origin: string) {
    exists text :: Get(raw, "origin") == Some(JString(text)) && text != "" && |text| <= 269
      && url(text) == Some(Url(origin, true, true))
         && text == (if text[|text| - 1] == '/' then origin + "/" else origin)
  }

  /** The SPKI digest goes with in-tee TLS, and an explicit null with gateway TLS. */
  ghost predicate SpkiFits(raw: Json, b: Binding) {
    match b.tlsSpki
    case None => b.transport == "gateway-tls" && Get(raw, "tls_spki_sha256") == Some(JNull)
    case Some(digest) =>
      b.transport == "in-tee-tls" && Spells(raw, "tls_spki_sha256", false, digest) && |digest| == 64
  }

  /** The texts of the binding are the ones the record holds, hex made small and stripped of one 0x. */
  ghost predicate HoldsTexts(raw: Json, b: Binding) {
    && Spells(raw, "nonce", false, b.nonce) && |b.nonce| == 64
    && Spells(raw, "app_id", true, b.appId) && |b.appId| <= 512
    && Spells(raw, "instance_id", true, b.instanceId) && |b.instanceId| <= 512
    && Spells(raw, "compose_hash", true, b.composeHash) && |b.composeHash| == 64
    && Spells(raw, "public_key", true, b.publicKey) && |b.publicKey| <= 512
  }

  ghost predicate HoldsNames(raw: Json, b: Binding) {
    && Get(raw, "release_id") == Some(JString(b.releaseId)) && 1 <= |b.releaseId| <= 128
    && (forall c | c in b.releaseId ::
          'A' <= c <= 'Z' || 'a' <= c <= 'z' || '0' <= c <= '9' || c in "._:@+-")
    && Get(raw, "key_alg") == Some(JString(b.keyAlg)) && b.keyAlg in ["x25519", "ed25519", "secp256k1"]
    && Get(raw, "transport") == Some(JString(b.transport))
  }

  /** A record without other fields, of version 1. */
  ghost predicate IsVersionOne(raw: Json) {
    && raw.JObject? && Get(raw, "v") == Some(JInt(1))
    && forall m | m in raw.members :: m.key in
         ["v", "nonce", "app_id", "instance_id", "compose_hash", "release_id", "origin",
          "key_alg", "public_key", "transport", "tls_spki_sha256"]
  }

  /** A record normalizes to a binding exactly when it is a version 1 record whose fields spell the binding. */
  lemma NormalizesExactly(url: UrlParser, raw: Json, b: Binding)
    ensures Normalize(url, raw) == Some(b) <==>
      && IsVersionOne(raw) && HoldsTexts(raw, b) && HoldsNames(raw, b) && SpkiFits(raw, b)
      && NamesOrigin(url, raw, b.origin)
  {
    FieldsHoldExactly(raw, b);
    NamesHoldExactly(raw, b);
    OriginExactly(url, raw, b.origin);
    SpkiExactly(raw, b);
    hide *;
    FieldByField(url, raw, b);
  }

  ghost predicate HexFieldsAre(raw: Json, b: Binding) {
    && HexField(raw, "nonce", false, Some(64)) == Some(b.nonce)
    && HexField(raw, "app_id", true, None) == Some(b.appId)
    && HexField(raw, "instance_id", true, None) == Some(b.instanceId)
    && HexField(raw, "compose_hash", true, Some(64)) == Some(b.composeHash)
    && HexField(raw, "public_key", true, None) == Some(b.publicKey)
  }

  ghost predicate NamesAre(raw: Json, b: Binding) {
    && GetText(raw, "release_id") == Some(b.releaseId) && ReleaseText(b.releaseId)
    && GetText(raw, "key_alg") == Some(b.keyAlg) && b.keyAlg in ["x25519", "ed25519", "secp256k1"]
    && GetText(raw, "transport") == Some(b.transport)
  }

  ghost predicate OriginIs(url: UrlParser, raw: Json, origin: string) {
    GetText(raw, "origin").Some? && CanonicalOrigin(url, GetText(raw, "origin").value) == Some(origin)
  }

  ghost predicate SpkiIs(raw: Json, b: Binding) {
    b.transport in [IN_TEE, IN_FRONT] && SpkiField(raw) == Some(b.tlsSpki)
  }

  lemma FieldByField(url: UrlParser, raw: Json, b: Binding)
    ensures Normalize(url, raw) == Some(b) <==>
      IsVersionOne(raw) && HexFieldsAre(raw, b) && NamesAre(raw, b) && SpkiIs(raw, b) && OriginIs(url, raw, b.origin)
  {
    hide HexField, SpkiField, CanonicalOrigin, ReleaseText, Get, GetText;
    assert IsVersionOne(raw) <==> KnownFields(raw) && Get(raw, "v") == Some(JInt(VERSION));
    hide IsVersionOne, KnownFields;
  }

  lemma FieldsHoldExactly(raw: Json, b: Binding)
    ensures HexFieldsAre(raw, b) <==> HoldsTexts(raw, b)
  {
    HexFieldExactly(raw, "nonce", false, Some(64), b.nonce);
    HexFieldExactly(raw, "app_id", true, None, b.appId);
    HexFieldExactly(raw, "instance_id", true, None, b.instanceId);
    HexFieldExactly(raw, "compose_hash", true, Some(64), b.composeHash);
    HexFieldExactly(raw, "public_key", true, None, b.publicKey);
    hide HexField, Spells;
  }

  lemma NamesHoldExactly(raw: Json, b: Binding)
    ensures NamesAre(raw, b) <==> HoldsNames(raw, b)
  {
    assert ReleaseText(b.releaseId) <==> 1 <= |b.releaseId| <= 128 && forall c | c in b.releaseId ::
      'A' <= c <= 'Z' || 'a' <= c <= 'z' || '0' <= c <= '9' || c in "._:@+-";
    hide ReleaseText, Get;
  }

  lemma HexFieldExactly(raw: Json, key: string, prefix: bool, exact: Option<nat>, value: string)
    ensures HexField(raw, key, prefix, exact) == Some(value) <==>
      Spells(raw, key, prefix, value) && (if exact.Some? then |value| == exact.value else |value| <= 512)
  {
    if GetText(raw, key).Some? {
      var text := GetText(raw, key).value;
      LowerExactly(text, value);
      LowerExactly(text, "0x" + value);
      StripExactly(Lower(text), value);
    }
    hide Get, Lower, Strip, SameUpToCase;
  }

  lemma LowerExactly(text: string, small: string)
    ensures Lower(text) == small <==> SameUpToCase(text, small)
  {}

  lemma StripExactly(s: string, hex: string)
    ensures LowerHexText(hex) ==> (Strip(s) == hex <==> s == hex || s == "0x" + hex)
  {
    if LowerHexText(hex) && |hex| > 1 { assert hex[1] in hex; }
    if "0x" <= s { assert s == "0x" + s[2..]; }
  }

  lemma OriginExactly(url: UrlParser, raw: Json, origin: string)
    ensures OriginIs(url, raw, origin) <==> NamesOrigin(url, raw, origin)
  {
    if GetText(raw, "origin").Some? { OriginTextExactly(url, GetText(raw, "origin").value, origin); }
    hide Get, CanonicalOrigin;
  }

  lemma OriginTextExactly(url: UrlParser, text: string, origin: string)
    ensures CanonicalOrigin(url, text) == Some(origin) <==>
      && text != "" && |text| <= 269 && url(text) == Some(Url(origin, true, true))
      && text == (if text[|text| - 1] == '/' then origin + "/" else origin)
  {}

  lemma SpkiExactly(raw: Json, b: Binding)
    ensures NamesAre(raw, b) ==> (SpkiIs(raw, b) <==> SpkiFits(raw, b))
  {
    if b.tlsSpki.Some? { HexFieldExactly(raw, "tls_spki_sha256", false, Some(64), b.tlsSpki.value); }
    assert IN_TEE != IN_FRONT by { assert |IN_TEE| == 10 && |IN_FRONT| == 11; }
    hide Get, HexField, ReleaseText;
  }

  // ---- The hashed text ------------------------------------------------------------------------

  /** canonicalGatewayBindingJson of a normalized binding: every field, in the fixed order. */
  function BindingJson(b: Binding): string { Stringify(Members(b)) }

  /** The text lists exactly the eleven fields, in the fixed order, each with its value. */
  lemma JsonFollowsFieldOrder(b: Binding, i: nat)
    requires i < 11
    ensures |Members(b)| == 11
    ensures Members(b)[i].key == ["v", "nonce", "app_id", "instance_id", "compose_hash", "release_id", "origin",
                                  "key_alg", "public_key", "transport", "tls_spki_sha256"][i]
    ensures Members(b)[i].value
      == [JInt(1), JString(b.nonce), JString(b.appId), JString(b.instanceId), JString(b.composeHash),
          JString(b.releaseId), JString(b.origin), JString(b.keyAlg), JString(b.publicKey), JString(b.transport),
          if b.tlsSpki.Some? then JString(b.tlsSpki.value) else JNull][i]
  {
    JsonFieldAt(b, i);
  }

  /** Equal canonical JSON means equal bindings, in all eleven fields. */
  lemma JsonIdentifiesBinding(a: Binding, b: Binding)
    ensures BindingJson(a) == BindingJson(b) <==> a == b
  {
    StringifyInjective(Members(a), Members(b));
    if BindingJson(a) == BindingJson(b) {
      hide *;
      MembersDetermineBinding(a, b);
    }
  }

  lemma MembersDetermineBinding(a: Binding, b: Binding)
    requires Members(a) == Members(b)
    ensures a == b
  {
    forall i | 0 <= i < 11 ensures Members(a)[i] == Members(b)[i] {}
    var v := Members(a);
    assert v[1].value.text == b.nonce && v[2].value.text == b.appId && v[3].value.text == b.instanceId;
    assert v[4].value.text == b.composeHash && v[5].value.text == b.releaseId && v[6].value.text == b.origin;
    assert v[7].value.text == b.keyAlg && v[8].value.text == b.publicKey && v[9].value.text == b.transport;
    assert v[10].value == if b.tlsSpki.Some? then JString(b.tlsSpki.value) else JNull;
  }

  /** report_data names one binding, or two canonical texts collide under SHA-512. */
  lemma DigestIdentifiesBinding(hash: seq<Byte> -> seq<Byte>, a: Binding, b: Binding)
    requires BytesToHex(hash(Utf8.Encode(BindingJson(a)))) == BytesToHex(hash(Utf8.Encode(BindingJson(b))))
    ensures a == b || (Utf8.Encode(BindingJson(a)) != Utf8.Encode(BindingJson(b))
                       && hash(Utf8.Encode(BindingJson(a))) == hash(Utf8.Encode(BindingJson(b))))
  {
    BytesOfHexOfBytes(hash(Utf8.Encode(BindingJson(a))));
    BytesOfHexOfBytes(hash(Utf8.Encode(BindingJson(b))));
    Utf8.EncodeInjective(BindingJson(a), BindingJson(b));
    JsonIdentifiesBinding(a, b);
  }
}
