/** GCE instance identities: the uint64 texts, the PZID payload and its strict parser. */
module GcePzid {
  import opened Wrappers
  import opened Text
  import opened CanonicalJson
  import opened CanonicalRoundTrip
  import Utf8

  const U64_MAX := "18446744073709551615"
  const U64 := 0x1_0000_0000_0000_0000
  const MAX_PZID_CHARS := 256
  const MAX_RULE_ZONES := 8

  /** The pattern 0|[1-9][0-9]{0,19}. */
  predicate Uint64Digits(s: string) { IsCanonicalNumeral(s) && |s| <= 20 }

  /** isGceUint64: equally long texts are compared as strings. */
  predicate IsGceUint64(s: string) { Uint64Digits(s) && (|s| < |U64_MAX| || s == U64_MAX || Less(s, U64_MAX)) }

  predicate IsGcePositiveUint64(s: string) { IsGceUint64(s) && s != "0" }

  predicate ZoneChar(c: char) { 'a' <= c <= 'z' || '0' <= c <= '9' || c == '-' }

  predicate ZoneText(s: string) { s != "" && forall c | c in s :: ZoneChar(c) }

  predicate IsGceZone(s: string) { ZoneText(s) && |s| <= 63 }

  // ---- String order against number order ----------------------------------------------------

  function Power10(k: nat): (p: nat)
    ensures p > 0
  {
    if k == 0 then 1 else 10 * Power10(k - 1)
  }

  lemma LastDigit(s: string)
    requires s != "" && AllDigits(s)
    ensures AllDigits(s[..|s| - 1]) && IsDigit(s[|s| - 1])
    ensures NumeralValue(s) == 10 * NumeralValue(s[..|s| - 1]) + DigitValue(s[|s| - 1])
  {
    assert s[|s| - 1] in s;
  }

  lemma {:induction false} LeadingDigit(s: string)
    requires s != "" && AllDigits(s)
    ensures IsDigit(s[0]) && AllDigits(s[1..])
    ensures NumeralValue(s) == DigitValue(s[0]) * Power10(|s| - 1) + NumeralValue(s[1..])
  {
    assert s[0] in s;
    LastDigit(s);
    if |s| > 1 {
      var init, tail := s[..|s| - 1], s[1..];
      LeadingDigit(init);
      LastDigit(tail);
      assert init[1..] == tail[..|tail| - 1] && tail[|tail| - 1] == s[|s| - 1] && init[0] == s[0];
      TenTimes(DigitValue(s[0]), |s| - 2);
    } else {
      assert s[1..] == "" && s[..0] == "";
    }
  }

  lemma TenTimes(d: nat, k: nat)
    ensures 10 * (d * Power10(k)) == d * Power10(k + 1)
  {}

  lemma {:induction false} NumeralBelow(s: string)
    requires AllDigits(s)
    ensures NumeralValue(s) < Power10(|s|)
  {
    if s != "" {
      NumeralBelow(s[..|s| - 1]);
      assert s[|s| - 1] in s;
    }
  }

  /** On digit strings of one length, string order is number order. */
  lemma {:induction false} StringOrderIsNumberOrder(s: string, t: string)
    requires AllDigits(s) && AllDigits(t) && |s| == |t|
    ensures Less(s, t) <==> NumeralValue(s) < NumeralValue(t)
  {
    if s != "" {
      LeadingDigit(s);
      LeadingDigit(t);
      NumeralBelow(s[1..]);
      NumeralBelow(t[1..]);
      StringOrderIsNumberOrder(s[1..], t[1..]);
      HigherDigitWins(DigitValue(s[0]), NumeralValue(s[1..]), DigitValue(t[0]), NumeralValue(t[1..]), Power10(|s| - 1));
    }
  }

  lemma HigherDigitWins(a: nat, x: nat, b: nat, y: nat, p: nat)
    requires x < p && y < p
    ensures a < b ==> a * p + x < b * p + y
    ensures b < a ==> b * p + y < a * p + x
  {
    if a < b { assert (a + 1) * p <= b * p; }
    if b < a { assert (b + 1) * p <= a * p; }
  }

  lemma TwoMoreDigits(s: string, t: string, whole: string)
    requires AllDigits(s) && AllDigits(t) && |t| == 2 && whole == s + t
    ensures AllDigits(whole) && NumeralValue(whole) == 100 * NumeralValue(s) + 10 * DigitValue(t[0]) + DigitValue(t[1])
    ensures s == "" ==> NumeralValue(s) == 0
  {
    var shorter := s + [t[0]];
    assert whole[..|s| + 1] == shorter && shorter[..|s|] == s;
    assert NumeralValue(shorter) == 10 * NumeralValue(s) + DigitValue(t[0]);
  }

  lemma U64MaxValue()
    ensures AllDigits(U64_MAX) && NumeralValue(U64_MAX) == U64 - 1
  {
    hide NumeralValue;
    TwoMoreDigits("", "18", "18");
    TwoMoreDigits("18", "44", "1844");
    TwoMoreDigits("1844", "67", "184467");
    TwoMoreDigits("184467", "44", "18446744");
    TwoMoreDigits("18446744", "07", "1844674407");
    TwoMoreDigits("1844674407", "37", "184467440737");
    TwoMoreDigits("184467440737", "09", "18446744073709");
    TwoMoreDigits("18446744073709", "55", "1844674407370955");
    TwoMoreDigits("1844674407370955", "16", "184467440737095516");
    TwoMoreDigits("184467440737095516", "15", U64_MAX);
  }

  lemma PowersOfTen()
    ensures Power10(19) == 10000000000000000000 && Power10(20) == 100000000000000000000
  {
    assert Power10(5) == 100000 by { assert Power10(3) == 1000; }
    assert Power10(7) == 10000000;
    assert Power10(9) == 1000000000;
    assert Power10(11) == 100000000000;
    assert Power10(13) == 10000000000000;
    assert Power10(15) == 1000000000000000;
    assert Power10(17) == 100000000000000000;
  }

  /** A numeral of more digits is larger. */
  lemma MoreDigitsIsLarger(s: string, k: nat)
    requires IsCanonicalNumeral(s) && s[0] != '0' && |s| > k
    ensures NumeralValue(s) >= Power10(k)
  {
    hide NumeralValue, Power10;
    LeadingDigit(s);
    Power10Grows(k, |s| - 1);
    AtLeastOnce(DigitValue(s[0]), Power10(|s| - 1));
  }

  lemma AtLeastOnce(d: nat, p: nat)
    requires d >= 1
    ensures d * p >= p
  {
    assert (d - 1) * p >= 0;
  }

  lemma {:induction false} Power10Grows(j: nat, k: nat)
    requires j <= k
    ensures Power10(j) <= Power10(k)
  {
    if j < k { Power10Grows(j, k - 1); }
  }

  /** The string comparison accepts exactly the canonical decimals of 0 .. 2^64 - 1. */
  lemma Uint64TextsExactly(s: string)
    ensures IsGceUint64(s) <==> exists n: nat :: n < U64 && s == Decimal(n)
  {
    U64MaxValue();
    if IsCanonicalNumeral(s) {
      NumeralIsDecimal(s);
      ValueBoundExactly(s);
    }
    forall n: nat | n < U64 && s == Decimal(n) ensures IsGceUint64(s) {
      DecimalValue(n);
      ValueBoundExactly(s);
    }
  }

  lemma ValueBoundExactly(s: string)
    requires IsCanonicalNumeral(s)
    ensures IsGceUint64(s) <==> NumeralValue(s) < U64
  {
    U64MaxValue();
    PowersOfTen();
    hide NumeralValue, Power10, Less;
    if |s| > 20 {
      MoreDigitsIsLarger(s, 20);
    } else if |s| < 20 {
      NumeralBelow(s);
      Power10Grows(|s|, 19);
    } else {
      StringOrderIsNumberOrder(s, U64_MAX);
      StringOrderIsNumberOrder(U64_MAX, s);
      LessTotal(s, U64_MAX);
    }
  }

  // ---- Printing and parsing ---------------------------------------------------------------------

  datatype Instance = Instance(projectNumber: string, zone: string, instanceId: string)

  const ID := "{\"instanceId\":"
  const PROJECT := ",\"numericalProjectId\":"
  const ZONE := ",\"zone\":\""
  const END := "\"}"

  function Shape(i: Instance): string { ID + i.instanceId + PROJECT + i.projectNumber + ZONE + i.zone + END }

  /** gcePzidPayload; None where it throws. */
  function GcePzidPayload(i: Instance): Option<string> {
    if ZoneText(i.zone) && IsGceUint64(i.instanceId) && IsGceUint64(i.projectNumber) then Some(Shape(i)) else None
  }

  /** The text after a prefix. */
  function After(prefix: string, s: string): Option<string> {
    if prefix <= s then Some(s[|prefix|..]) else None
  }

  /** The PZID pattern, read from left to right. */
  function Match(s: string): Option<Instance> {
    match After(ID, s)
    case None => None
    case Some(s1) =>
      var id := s1[..DigitRun(s1)];
      match After(PROJECT, s1[DigitRun(s1)..])
      case None => None
      case Some(s2) =>
        var project := s2[..DigitRun(s2)];
        match After(ZONE, s2[DigitRun(s2)..])
        case None => None
        case Some(s3) =>
          if |s3| < 2 || s3[|s3| - 2..] != END then None
          else
            var zone := s3[..|s3| - 2];
            if Uint64Digits(id) && Uint64Digits(project) && IsGceZone(zone)
            then Some(Instance(project, zone, id))
            else None
  }

  function ParseGcePzid(payload: string): Option<Instance> {
    if |payload| > MAX_PZID_CHARS then None
    else match Match(payload)
      case None => None
      case Some(i) =>
        if !IsGcePositiveUint64(i.instanceId) || !IsGcePositiveUint64(i.projectNumber) || !IsGceZone(i.zone) then None
        else if GcePzidPayload(i) == Some(payload) then Some(i) else None
  }

  lemma DigitsThen(digits: string, rest: string)
    requires AllDigits(digits) && !StartsWithDigit(rest)
    ensures DigitRun(digits + rest) == |digits|
    ensures (digits + rest)[..|digits|] == digits && (digits + rest)[|digits|..] == rest
  {
    DigitRunStops(digits, rest);
  }

  lemma PrefixThen(prefix: string, rest: string)
    ensures After(prefix, prefix + rest) == Some(rest)
  {}

  lemma ShapeFromTheRight(i: Instance)
    ensures Shape(i) == ID + (i.instanceId + (PROJECT + (i.projectNumber + (ZONE + (i.zone + END)))))
  {}

  /** The pattern matches the shape, and finds its parts. */
  lemma ShapeMatches(i: Instance)
    requires Uint64Digits(i.instanceId) && Uint64Digits(i.projectNumber) && IsGceZone(i.zone)
    ensures Match(Shape(i)) == Some(i)
  {
    assert AllDigits(i.instanceId) && AllDigits(i.projectNumber);
    hide Shape, After, Uint64Digits, IsGceZone, AllDigits, DigitRun;
    var s3 := i.zone + END;
    var s2 := i.projectNumber + (ZONE + s3);
    var s1 := i.instanceId + (PROJECT + s2);
    ShapeFromTheRight(i);
    PrefixThen(ID, s1);
    NoDigitFirst(s2, s3);
    DigitsThen(i.instanceId, PROJECT + s2);
    PrefixThen(PROJECT, s2);
    DigitsThen(i.projectNumber, ZONE + s3);
    PrefixThen(ZONE, s3);
    EndThen(i.zone);
  }

  lemma NoDigitFirst(s: string, t: string)
    ensures !StartsWithDigit(PROJECT + s) && !StartsWithDigit(ZONE + t)
  {
    assert (PROJECT + s)[0] == ',' && (ZONE + t)[0] == ',';
  }

  lemma EndThen(zone: string)
    ensures var s := zone + END; |s| >= 2 && s[|s| - 2..] == END && s[..|s| - 2] == zone
  {}

  predicate Proper(i: Instance) {
    IsGcePositiveUint64(i.instanceId) && IsGcePositiveUint64(i.projectNumber) && IsGceZone(i.zone)
  }

  /**
   * Print and parse are mutual inverses on nonzero uint64 numbers and 1..63 character zones, and
   * nothing else parses.
   */
  lemma ParseInvertsPrint(payload: string, i: Instance)
    ensures ParseGcePzid(payload) == Some(i) <==> Proper(i) && GcePzidPayload(i) == Some(payload)
  {
    if Proper(i) && GcePzidPayload(i) == Some(payload) {
      ShapeMatches(i);
      ShapeIsShort(i);
    }
  }

  /** Every payload of a proper instance fits the bound with room to spare. */
  lemma ShapeIsShort(i: Instance)
    requires Uint64Digits(i.instanceId) && Uint64Digits(i.projectNumber) && IsGceZone(i.zone)
    ensures |Shape(i)| <= 150
  {}

  /**
   * What the printer accepts reads back exactly when the numbers are nonzero and the zone fits: the
   * printer does not bound it.
   */
  lemma PrintedReadsBackExactly(i: Instance)
    requires GcePzidPayload(i).Some?
    ensures ParseGcePzid(GcePzidPayload(i).value) == Some(i)
      <==> i.instanceId != "0" && i.projectNumber != "0" && |i.zone| <= 63
  {
    hide ParseGcePzid, Shape, Uint64Digits, Less, ZoneText;
    ParseInvertsPrint(GcePzidPayload(i).value, i);
  }

  // ---- MR_OWNER -------------------------------------------------------------------------------------

  type Hash = seq<Byte> -> seq<Byte>

  predicate MrOwnerText(s: string) {
    |s| == 96 && (forall c | c in s :: IsHexDigit(c)) && exists c | c in s :: c != '0'
  }

  /** gceInstanceFromMrOwner. */
  function InstanceFromMrOwner(hash: Hash, payload: string, mrOwner: string): Option<Instance> {
    if !MrOwnerText(Lower(mrOwner)) then None
    else match ParseGcePzid(payload)
      case None => None
      case Some(i) => if BytesToHex(hash(Utf8.Encode(payload))) == Lower(mrOwner) then Some(i) else None
  }

  /** A register names one instance, or two presented payloads collide under SHA-384. */
  lemma RegisterNamesOneInstance(hash: Hash, mrOwner: string, p1: string, p2: string)
    requires InstanceFromMrOwner(hash, p1, mrOwner).Some? && InstanceFromMrOwner(hash, p2, mrOwner).Some?
    ensures InstanceFromMrOwner(hash, p1, mrOwner) == InstanceFromMrOwner(hash, p2, mrOwner)
      || (Utf8.Encode(p1) != Utf8.Encode(p2) && hash(Utf8.Encode(p1)) == hash(Utf8.Encode(p2)))
  {
    BytesOfHexOfBytes(hash(Utf8.Encode(p1)));
    BytesOfHexOfBytes(hash(Utf8.Encode(p2)));
    Utf8.EncodeInjective(p1, p2);
  }

  // ---- The owner rule ---------------------------------------------------------------------------------

  datatype Rule = Rule(projectNumber: string, zones: seq<string>)

  /** What validateGceMrOwnerRule asks of the fields; each zone is compared with its left neighbour only. */
  predicate RuleOk(rule: Rule) {
    && IsGcePositiveUint64(rule.projectNumber) && 1 <= |rule.zones| <= MAX_RULE_ZONES
    && (forall k | 0 <= k < |rule.zones| :: IsGceZone(rule.zones[k]))
    && forall j, k | 0 <= j && k == j + 1 < |rule.zones| :: Less(rule.zones[j], rule.zones[k])
  }

  predicate RuleAdmits(rule: Rule, i: Instance) { i.projectNumber == rule.projectNumber && i.zone in rule.zones }

  /**
   * An instance a rule admits is the one its MR_OWNER names: proper, in the pinned project
   * and a listed zone, and printed as the very payload whose digest the register holds. Any
   * other payload accepted for that register shows the same instance, or collides with it.
   */
  lemma AdmittedInstanceIsMeasured(hash: Hash, rule: Rule, mrOwner: string, payload: string, other: string)
    requires InstanceFromMrOwner(hash, payload, mrOwner).Some?
    requires RuleAdmits(rule, InstanceFromMrOwner(hash, payload, mrOwner).value)
    ensures var i := InstanceFromMrOwner(hash, payload, mrOwner).value;
      && Proper(i) && i.projectNumber == rule.projectNumber && i.zone in rule.zones
      && GcePzidPayload(i) == Some(payload) && BytesToHex(hash(Utf8.Encode(Shape(i)))) == Lower(mrOwner)
    ensures InstanceFromMrOwner(hash, other, mrOwner).Some? ==>
      || InstanceFromMrOwner(hash, other, mrOwner) == InstanceFromMrOwner(hash, payload, mrOwner)
      || (Utf8.Encode(payload) != Utf8.Encode(other) && hash(Utf8.Encode(payload)) == hash(Utf8.Encode(other)))
  {
    ParseInvertsPrint(payload, InstanceFromMrOwner(hash, payload, mrOwner).value);
    hide ParseGcePzid, Proper, Lower;
    if InstanceFromMrOwner(hash, other, mrOwner).Some? { RegisterNamesOneInstance(hash, mrOwner, payload, other); }
  }

  /** Neighbour comparisons make the zones sorted and pairwise distinct. */
  lemma {:induction false} ZonesAscend(rule: Rule, j: nat, k: nat)
    requires RuleOk(rule) && j < k < |rule.zones|
    ensures Less(rule.zones[j], rule.zones[k]) && rule.zones[j] != rule.zones[k]
    decreases k
  {
    if j < k - 1 {
      ZonesAscend(rule, j, k - 1);
      LessTransitive(rule.zones[j], rule.zones[k - 1], rule.zones[k]);
    }
    LessTotal(rule.zones[j], rule.zones[k]);
  }

  // ---- In plain numbers -----------------------------------------------------------------------------

  /** The decimal of a number from 1 to 2^64 - 1. */
  ghost predicate PositiveNumber(s: string) { exists n: nat :: 0 < n < 0x1_0000_0000_0000_0000 && s == Decimal(n) }

  predicate Zone(s: string) { 1 <= |s| <= 63 && forall c | c in s :: 'a' <= c <= 'z' || '0' <= c <= '9' || c == '-' }

  lemma PositiveExactly(s: string)
    ensures IsGcePositiveUint64(s) <==> PositiveNumber(s)
  {
    Uint64TextsExactly(s);
    hide IsGceUint64, Decimal;
    if IsGcePositiveUint64(s) {
      var n: nat :| n < U64 && s == Decimal(n);
      ZeroOnly(n);
    }
    if PositiveNumber(s) {
      var n: nat :| 0 < n < U64 && s == Decimal(n);
      ZeroOnly(n);
    }
  }

  lemma ZeroOnly(n: nat)
    ensures Decimal(n) == "0" <==> n == 0
  {
    DecimalValue(n);
  }

  /**
   * An instance is read from a payload and a register exactly when the payload is the one text of positive
   * 64-bit numbers and a zone, and the register, 96 hex digits in any case and not all zero, is its digest.
   */
  lemma InstanceExactly(hash: Hash, payload: string, mrOwner: string, i: Instance)
    ensures InstanceFromMrOwner(hash, payload, mrOwner) == Some(i) <==>
      && PositiveNumber(i.instanceId) && PositiveNumber(i.projectNumber) && Zone(i.zone)
      && payload == "{\"instanceId\":" + i.instanceId + ",\"numericalProjectId\":" + i.projectNumber
                    + ",\"zone\":\"" + i.zone + "\"}"
      && BytesToHex(hash(Utf8.Encode(payload))) == Lower(mrOwner)
      && |mrOwner| == 96 && exists c | c in Lower(mrOwner) :: c != '0'
  {
    ParseInvertsPrint(payload, i);
    PositiveExactly(i.instanceId);
    PositiveExactly(i.projectNumber);
    hide ParseGcePzid, IsGceUint64, PositiveNumber;
    assert BytesToHex(hash(Utf8.Encode(payload))) == Lower(mrOwner) ==> IsHex(Lower(mrOwner));
    hide Lower, BytesToHex, Utf8.Encode;
  }

  /** A rule is valid exactly with a positive project number and one to eight zones in strictly ascending order. */
  lemma RuleExactly(rule: Rule)
    ensures RuleOk(rule) <==>
      && PositiveNumber(rule.projectNumber) && 1 <= |rule.zones| <= 8 && (forall z | z in rule.zones :: Zone(z))
      && forall j, k | 0 <= j < k < |rule.zones| :: Less(rule.zones[j], rule.zones[k])
  {
    PositiveExactly(rule.projectNumber);
    hide IsGcePositiveUint64, PositiveNumber, Less;
    if RuleOk(rule) {
      forall j, k | 0 <= j < k < |rule.zones| ensures Less(rule.zones[j], rule.zones[k]) { ZonesAscend(rule, j, k); }
      assert forall z | z in rule.zones :: IsGceZone(z);
    }
    assert forall k | 0 <= k < |rule.zones| :: rule.zones[k] in rule.zones;
  }
}
