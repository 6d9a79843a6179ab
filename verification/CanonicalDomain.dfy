/** Exactly which values the canonical encoders accept. */
module CanonicalDomain {
  import opened Wrappers
  import opened Numbers
  import opened CanonicalJson

  /** How many containers lie on the longest way down to a value inside; an empty container adds none. */
  function Nesting(v: Json): nat {
    match v
    case JArray(items) => NestingOfItems(items)
    case JObject(_, members) => NestingOfMembers(members)
    case _ => 0
  }

  function NestingOfItems(items: seq<Json>): nat {
    if items == [] then 0
    else
      var rest := NestingOfItems(items[1..]);
      if 1 + Nesting(items[0]) > rest then 1 + Nesting(items[0]) else rest
  }

  function NestingOfMembers(members: seq<Field<Json>>): nat {
    if members == [] then 0
    else
      var rest := NestingOfMembers(members[1..]);
      if 1 + Nesting(members[0].value) > rest then 1 + Nesting(members[0].value) else rest
  }

  /** Printable ASCII in a release, ASCII in a policy. */
  predicate Plain(p: Profile, text: string) {
    forall c | c in text :: if p.Release? then ' ' <= c <= '~' else c as int <= 127
  }

  lemma PlainExactly(p: Profile, text: string)
    ensures AllowedText(p, text) <==> Plain(p, text)
  {
    forall i | 0 <= i < |text| ensures text[i] in text {}
  }

  /** Every number is a safe natural number, every text and key is in the alphabet, and nothing else occurs. */
  ghost predicate Encodable(p: Profile, v: Json) {
    match v
    case JNull => true
    case JBool(_) => true
    case JInt(n) => 0 <= n <= 9007199254740991
    case JNegativeZero => true
    case JFraction => false
    case JString(text) => Plain(p, text)
    case JArray(items) => forall item | item in items :: Encodable(p, item)
    case JObject(plain, members) =>
      (p.Release? ==> plain) && forall m | m in members :: Plain(p, m.key) && Encodable(p, m.value)
    case JOther => false
  }

  predicate Fits(p: Profile, depth: nat, nesting: nat) { p.Release? ==> depth + nesting <= 12 }

  /**
   * A value is accepted exactly when all it holds is encodable and, for a release, it is nested at
   * most twelve deep.
   */
  lemma {:induction false} AcceptedExactly(p: Profile, v: Json, depth: nat)
    ensures Canonical(p, v, depth).Some? <==> Encodable(p, v) && Fits(p, depth, Nesting(v))
    decreases v
  {
    if !TooDeep(p, depth) {
      match v
      case JArray(items) => ItemsAcceptedExactly(p, items, depth);
      case JObject(_, members) => MembersAcceptedExactly(p, members, depth);
      case JString(text) => PlainExactly(p, text);
      case _ =>
    }
  }

  lemma {:induction false} ItemsAcceptedExactly(p: Profile, items: seq<Json>, depth: nat)
    requires !TooDeep(p, depth)
    ensures CanonicalItems(p, items, depth + 1).Some? <==>
      (forall item | item in items :: Encodable(p, item)) && Fits(p, depth, NestingOfItems(items))
    decreases items
  {
    hide Encodable, Canonical, Nesting;
    if items != [] {
      assert CanonicalItems(p, items, depth + 1).Some? <==>
        Canonical(p, items[0], depth + 1).Some? && CanonicalItems(p, items[1..], depth + 1).Some?;
      AcceptedExactly(p, items[0], depth + 1);
      ItemsAcceptedExactly(p, items[1..], depth);
      assert items == [items[0]] + items[1..];
      assert (forall item | item in items :: Encodable(p, item)) <==>
        Encodable(p, items[0]) && forall item | item in items[1..] :: Encodable(p, item);
    }
  }

  lemma {:induction false} MembersAcceptedExactly(p: Profile, members: seq<Field<Json>>, depth: nat)
    requires !TooDeep(p, depth)
    ensures CanonicalMembers(p, members, depth + 1).Some? <==>
      (forall m | m in members :: Plain(p, m.key) && Encodable(p, m.value))
      && Fits(p, depth, NestingOfMembers(members))
    decreases members
  {
    hide Encodable, Canonical, Nesting, AllowedText, Plain;
    if members != [] {
      PlainExactly(p, members[0].key);
      assert members == [members[0]] + members[1..];
      assert CanonicalMembers(p, members, depth + 1).Some? <==>
        AllowedText(p, members[0].key) && Canonical(p, members[0].value, depth + 1).Some?
        && CanonicalMembers(p, members[1..], depth + 1).Some?;
      AcceptedExactly(p, members[0].value, depth + 1);
      MembersAcceptedExactly(p, members[1..], depth);
      assert forall m :: m in members <==> m == members[0] || m in members[1..];
    }
  }
}
