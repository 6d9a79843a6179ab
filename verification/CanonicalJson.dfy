/**
 * The two restricted canonical JSON encoders (release policy v3 and signed
 * gateway policy) and a reference decoder that reads exactly their output.
 */
module CanonicalJson {
  import opened Wrappers
  import opened Numbers
  import opened Text

  datatype Field<+T> = Field(key: string, value: T)

  /** A JavaScript value, as far as the encoders look at it. */
  datatype Json =
    | JNull
    | JBool(flag: bool)
    | JInt(n: int)         // a number with an integral value, other than -0
    | JNegativeZero
    | JFraction            // any other number: fractions, infinities, NaN
    | JString(text: string)
    | JArray(items: seq<Json>)
    | JObject(plain: bool, members: seq<Field<Json>>)  // own enumerable keys, in insertion order
    | JOther               // undefined, functions, symbols, bigints

  /** Release: canonicalReleaseJson. Policy: canonicalGatewayPolicyJson. */
  datatype Profile = Release | Policy

  const MAX_RELEASE_DEPTH := 12

  /** The keys of a JavaScript object are pairwise distinct, at every level. */
  ghost predicate DistinctKeys(v: Json) {
    match v
    case JArray(items) => forall item | item in items :: DistinctKeys(item)
    case JObject(_, members) =>
      && (forall i, j | 0 <= i < j < |members| :: members[i].key != members[j].key)
      && (forall m | m in members :: DistinctKeys(m.value))
    case _ => true
  }

  // ---- Sorting keys ------------------------------------------------------------

  /** Code unit order, the order of Array.prototype.sort on strings. */
  predicate Less(a: string, b: string) {
    if b == "" then false
    else if a == "" then true
    else a[0] < b[0] || (a[0] == b[0] && Less(a[1..], b[1..]))
  }

  lemma {:induction false} LessTotal(a: string, b: string)
    ensures a == b || Less(a, b) || Less(b, a)
    ensures !(Less(a, b) && Less(b, a)) && !Less(a, a)
  {
    if a != "" {
      LessTotal(a[1..], if b == "" then "" else b[1..]);
      if b != "" && a[0] == b[0] && a[1..] == b[1..] {
        assert a == [a[0]] + a[1..] && b == [b[0]] + b[1..];
      }
    }
  }

  lemma {:induction false} LessTransitive(a: string, b: string, c: string)
    requires Less(a, b) && Less(b, c)
    ensures Less(a, c)
  {
    if a != "" && a[0] == b[0] && b[0] == c[0] {
      LessTransitive(a[1..], b[1..], c[1..]);
    }
  }

  function Insert<T>(f: Field<T>, fs: seq<Field<T>>): (r: seq<Field<T>>)
    ensures multiset(r) == multiset([f]) + multiset(fs)
    ensures |r| == |fs| + 1
  {
    if fs == [] || Less(f.key, fs[0].key) then [f] + fs
    else
      var r := [fs[0]] + Insert(f, fs[1..]);
      assert fs == [fs[0]] + fs[1..];
      r
  }

  function SortFields<T>(fs: seq<Field<T>>): (r: seq<Field<T>>)
    ensures multiset(r) == multiset(fs)
    ensures |r| == |fs|
  {
    if fs == [] then []
    else
      assert fs == [fs[0]] + fs[1..];
      Insert(fs[0], SortFields(fs[1..]))
  }

  ghost predicate Ascending<T>(fs: seq<Field<T>>) {
    forall i, j | 0 <= i < j < |fs| :: Less(fs[i].key, fs[j].key)
  }

  /** Ascending, checked the way a reader would: neighbour by neighbour. */
  predicate NeighboursAscend<T>(fs: seq<Field<T>>) {
    forall i | 0 <= i < |fs| - 1 :: Less(fs[i].key, fs[i + 1].key)
  }

  lemma {:induction false} NeighboursSuffice<T>(fs: seq<Field<T>>)
    requires NeighboursAscend(fs)
    ensures Ascending(fs)
  {
    forall i, j | 0 <= i < j < |fs| ensures Less(fs[i].key, fs[j].key) {
      NeighboursReach(fs, i, j);
    }
  }

  lemma {:induction false} NeighboursReach<T>(fs: seq<Field<T>>, i: nat, j: nat)
    requires NeighboursAscend(fs) && i < j < |fs|
    ensures Less(fs[i].key, fs[j].key)
  {
    if i + 1 < j {
      NeighboursReach(fs, i, j - 1);
      LessTransitive(fs[i].key, fs[j - 1].key, fs[j].key);
    }
  }

  lemma {:induction false} InsertAscends<T>(f: Field<T>, fs: seq<Field<T>>)
    requires Ascending(fs) && forall g | g in fs :: g.key != f.key
    ensures Ascending(Insert(f, fs))
  {
    hide Less;
    if fs != [] {
      LessTotal(f.key, fs[0].key);
      var tail := fs[1..];
      if Less(f.key, fs[0].key) {
        forall j | 0 < j < |fs| ensures Less(f.key, fs[j].key) {
          LessTransitive(f.key, fs[0].key, fs[j].key);
        }
        SmallestFirst(f, fs);
      } else {
        InsertAscends(f, tail);
        forall g | g in Insert(f, tail) ensures Less(fs[0].key, g.key) {
          assert g in multiset(Insert(f, tail));
          assert g == f || g in tail;
        }
        hide Insert;
        SmallestFirst(fs[0], Insert(f, tail));
      }
    }
  }

  lemma SmallestFirst<T>(f: Field<T>, fs: seq<Field<T>>)
    requires Ascending(fs) && forall j | 0 <= j < |fs| :: Less(f.key, fs[j].key)
    ensures Ascending([f] + fs)
  {
    hide Less;
    var longer := [f] + fs;
    forall i, j | 0 <= i < j < |longer| ensures Less(longer[i].key, longer[j].key) {
      assert longer[j] == fs[j - 1] && (i > 0 ==> longer[i] == fs[i - 1]);
    }
  }

  lemma {:induction false} SortAscends<T>(fs: seq<Field<T>>)
    requires forall i, j | 0 <= i < j < |fs| :: fs[i].key != fs[j].key
    ensures Ascending(SortFields(fs))
  {
    if fs != [] {
      SortAscends(fs[1..]);
      forall g | g in SortFields(fs[1..]) ensures g.key != fs[0].key {
        assert g in multiset(fs[1..]);
      }
      InsertAscends(fs[0], SortFields(fs[1..]));
    }
  }

  lemma {:induction false} SortKeepsAscending<T>(fs: seq<Field<T>>)
    requires Ascending(fs)
    ensures SortFields(fs) == fs
  {
    if fs != [] {
      SortKeepsAscending(fs[1..]);
      assert |fs| > 1 ==> fs[1..][0] == fs[1];
      assert fs == [fs[0]] + fs[1..];
    }
  }

  /** Ascending lists with the same elements are the same list. */
  lemma {:induction false} AscendingUnique<T>(a: seq<Field<T>>, b: seq<Field<T>>)
    requires Ascending(a) && Ascending(b) && forall f | f in a :: f in b
    ensures |a| <= |b| && (|a| == |b| ==> a == b)
  {
    if a != [] {
      assert a[0] in b;
      var k :| 0 <= k < |b| && b[k] == a[0];
      var a' := if k == 0 then a[1..] else a;
      forall f | f in a' ensures f in b[1..] {
        assert f in a;
        if f != a[0] {
          assert Less(a[0].key, f.key);
        }
        if k > 0 && f != a[0] {
          LessTransitive(b[0].key, a[0].key, f.key);
        }
        LessTotal(f.key, f.key);
        assert f != b[0];
      }
      AscendingUnique(a', b[1..]);
    }
  }

  /** Sorting looks at keys only, so it moves related lists in step. */
  lemma {:induction false} InsertInStep<A, B>(
      f: Field<A>, g: Field<B>, fs: seq<Field<A>>, gs: seq<Field<B>>, related: (Field<A>, Field<B>) -> bool)
    requires |fs| == |gs| && f.key == g.key && related(f, g)
    requires forall i | 0 <= i < |fs| :: fs[i].key == gs[i].key && related(fs[i], gs[i])
    ensures forall i | 0 <= i < |fs| + 1 ::
      Insert(f, fs)[i].key == Insert(g, gs)[i].key && related(Insert(f, fs)[i], Insert(g, gs)[i])
  {
    hide Less;
    var a, b := Insert(f, fs), Insert(g, gs);
    if fs != [] && !Less(f.key, fs[0].key) {
      InsertInStep(f, g, fs[1..], gs[1..], related);
      var a', b' := Insert(f, fs[1..]), Insert(g, gs[1..]);
      assert a == [fs[0]] + a' && b == [gs[0]] + b';
      hide Insert;
      forall i | 0 <= i < |fs| + 1 ensures a[i].key == b[i].key && related(a[i], b[i]) {
        if i > 0 { assert a[i] == a'[i - 1] && b[i] == b'[i - 1]; }
      }
    } else {
      assert a == [f] + fs && b == [g] + gs;
      hide Insert;
      forall i | 0 <= i < |fs| + 1 ensures a[i].key == b[i].key && related(a[i], b[i]) {
        if i > 0 { assert a[i] == fs[i - 1] && b[i] == gs[i - 1]; }
      }
    }
  }

  lemma {:induction false} SortInStep<A, B>(
      fs: seq<Field<A>>, gs: seq<Field<B>>, related: (Field<A>, Field<B>) -> bool)
    requires |fs| == |gs|
    requires forall i | 0 <= i < |fs| :: fs[i].key == gs[i].key && related(fs[i], gs[i])
    ensures forall i | 0 <= i < |fs| ::
      SortFields(fs)[i].key == SortFields(gs)[i].key && related(SortFields(fs)[i], SortFields(gs)[i])
  {
    if fs != [] {
      SortInStep(fs[1..], gs[1..], related);
      InsertInStep(fs[0], gs[0], SortFields(fs[1..]), SortFields(gs[1..]), related);
    }
  }

  // ---- The encoders ------------------------------------------------------------

  predicate AllowedChar(p: Profile, c: char) {
    match p
    case Release => 0x20 <= c as int <= 0x7e
    case Policy => c as int < 0x80
  }

  predicate AllowedText(p: Profile, s: string) { forall i | 0 <= i < |s| :: AllowedChar(p, s[i]) }

  /** JSON.stringify on one character. */
  function EscapeChar(c: char): (s: string)
    ensures s != "" && s[0] != '"'
  {
    if c == '"' then "\\\""
    else if c == '\\' then "\\\\"
    else if c as int >= 0x20 then [c]
    else if c as int == 8 then "\\b"
    else if c as int == 9 then "\\t"
    else if c as int == 10 then "\\n"
    else if c as int == 12 then "\\f"
    else if c as int == 13 then "\\r"
    else "\\u00" + [HexDigit(c as int / 16), HexDigit(c as int % 16)]
  }

  function EscapeText(s: string): string {
    if s == "" then "" else EscapeChar(s[0]) + EscapeText(s[1..])
  }

  /** JSON.stringify on a string. */
  function Quote(s: string): string { "\"" + EscapeText(s) + "\"" }

  predicate TooDeep(p: Profile, depth: nat) { p.Release? && depth > MAX_RELEASE_DEPTH }

  /** The canonical text of a value, or None where the source throws. */
  function Canonical(p: Profile, v: Json, depth: nat): Option<string>
    decreases v
  {
    if TooDeep(p, depth) then None
    else match v
      case JNull => Some("null")
      case JBool(flag) => Some(if flag then "true" else "false")
      case JInt(n) => if 0 <= n <= MAX_SAFE_INTEGER then Some(Decimal(n)) else None
      case JNegativeZero => Some("0")
      case JFraction => None
      case JString(text) => if AllowedText(p, text) then Some(Quote(text)) else None
      case JArray(items) =>
        (match CanonicalItems(p, items, depth + 1)
         case None => None
         case Some(texts) => Some("[" + Join(texts, ",") + "]"))
      case JObject(plain, members) =>
        if p.Release? && !plain then None
        else
          (match CanonicalMembers(p, members, depth + 1)
           case None => None
           case Some(fields) => Some("{" + Join(MemberTexts(SortFields(fields)), ",") + "}"))
      case JOther => None
  }

  function CanonicalItems(p: Profile, items: seq<Json>, depth: nat): (r: Option<seq<string>>)
    ensures r.Some? ==> |r.value| == |items|
    decreases items
  {
    if items == [] then Some([])
    else match (Canonical(p, items[0], depth), CanonicalItems(p, items[1..], depth))
      case (Some(text), Some(texts)) => Some([text] + texts)
      case _ => None
  }

  function CanonicalMembers(p: Profile, members: seq<Field<Json>>, depth: nat): (r: Option<seq<Field<string>>>)
    ensures r.Some? ==> |r.value| == |members|
    decreases members
  {
    if members == [] then Some([])
    else if !AllowedText(p, members[0].key) then None
    else match (Canonical(p, members[0].value, depth), CanonicalMembers(p, members[1..], depth))
      case (Some(text), Some(fields)) => Some([Field(members[0].key, text)] + fields)
      case _ => None
  }

  function MemberTexts(fields: seq<Field<string>>): (texts: seq<string>)
    ensures |texts| == |fields|
  {
    seq(|fields|, i requires 0 <= i < |fields| => Quote(fields[i].key) + ":" + fields[i].value)
  }

  // ---- The reference decoder ---------------------------------------------------

  /** The number of digits a text starts with. */
  function DigitRun(s: string): (k: nat)
    ensures k <= |s| && AllDigits(s[..k])
    ensures k < |s| ==> !IsDigit(s[k])
  {
    if s != "" && IsDigit(s[0]) then
      var k := DigitRun(s[1..]);
      assert s[..k + 1] == [s[0]] + s[1..][..k];
      k + 1
    else 0
  }

  predicate StartsWithDigit(s: string) { s != "" && IsDigit(s[0]) }

  function DecodeNumber(s: string): (r: Option<(Json, string)>)
    requires StartsWithDigit(s)
    ensures r.Some? ==> |r.value.1| < |s|
  {
    var k := DigitRun(s);
    if IsCanonicalNumeral(s[..k]) && NumeralValue(s[..k]) <= MAX_SAFE_INTEGER
    then Some((JInt(NumeralValue(s[..k])), s[k..]))
    else None
  }

  /** The only character a text can start with an escape of. */
  function Candidate(s: string): char
    requires s != ""
  {
    if s[0] != '\\' || |s| < 2 then s[0]
    else if s[1] == '"' then '"'
    else if s[1] == 'b' then 8 as char
    else if s[1] == 't' then 9 as char
    else if s[1] == 'n' then 10 as char
    else if s[1] == 'f' then 12 as char
    else if s[1] == 'r' then 13 as char
    else if s[1] == 'u' && |s| >= 6 && IsHexDigit(s[4]) && IsHexDigit(s[5])
    then (HexValue(s[4]) * 16 + HexValue(s[5])) as char
    else '\\'
  }

  /** The characters up to the closing quote, and what follows it. */
  function DecodeChars(p: Profile, s: string): (r: Option<(string, string)>)
    ensures r.Some? ==> |r.value.1| < |s|
    decreases |s|
  {
    if s == "" then None
    else if s[0] == '"' then Some(("", s[1..]))
    else
      var c := Candidate(s);
      if !AllowedChar(p, c) || !(EscapeChar(c) <= s) then None
      else match DecodeChars(p, s[|EscapeChar(c)|..])
        case None => None
        case Some((text, rest)) => Some(([c] + text, rest))
  }

  function DecodeQuoted(p: Profile, s: string): (r: Option<(string, string)>)
    ensures r.Some? ==> |r.value.1| < |s|
  {
    if s == "" || s[0] != '"' then None else DecodeChars(p, s[1..])
  }

  /** One canonical value at the start of a text, and what follows it. */
  function DecodeValue(p: Profile, s: string, depth: nat): (r: Option<(Json, string)>)
    ensures r.Some? ==> |r.value.1| < |s|
    decreases |s|, 0
  {
    if s == "" || TooDeep(p, depth) then None
    else if "null" <= s then Some((JNull, s[4..]))
    else if "true" <= s then Some((JBool(true), s[4..]))
    else if "false" <= s then Some((JBool(false), s[5..]))
    else if IsDigit(s[0]) then DecodeNumber(s)
    else if s[0] == '"' then
      (match DecodeQuoted(p, s)
       case None => None
       case Some((text, rest)) => Some((JString(text), rest)))
    else if "[]" <= s then Some((JArray([]), s[2..]))
    else if s[0] == '[' then
      (match DecodeItems(p, s[1..], depth + 1)
       case None => None
       case Some((items, rest)) => Some((JArray(items), rest)))
    else if "{}" <= s then Some((JObject(true, []), s[2..]))
    else if s[0] == '{' then
      (match DecodeMembers(p, s[1..], depth + 1)
       case None => None
       case Some((members, rest)) =>
         if NeighboursAscend(members) then Some((JObject(true, members), rest)) else None)
    else None
  }

  function DecodeItems(p: Profile, s: string, depth: nat): (r: Option<(seq<Json>, string)>)
    ensures r.Some? ==> |r.value.1| < |s| && r.value.0 != []
    decreases |s|, 1
  {
    match DecodeValue(p, s, depth)
    case None => None
    case Some((item, rest)) =>
      if rest == "" then None
      else if rest[0] == ']' then Some(([item], rest[1..]))
      else if rest[0] != ',' then None
      else match DecodeItems(p, rest[1..], depth)
        case None => None
        case Some((items, rest')) => Some(([item] + items, rest'))
  }

  function DecodeMember(p: Profile, s: string, depth: nat): (r: Option<(Field<Json>, string)>)
    ensures r.Some? ==> |r.value.1| < |s|
    decreases |s|, 1
  {
    match DecodeQuoted(p, s)
    case None => None
    case Some((key, rest)) =>
      if rest == "" || rest[0] != ':' then None
      else match DecodeValue(p, rest[1..], depth)
        case None => None
        case Some((value, rest')) => Some((Field(key, value), rest'))
  }

  function DecodeMembers(p: Profile, s: string, depth: nat): (r: Option<(seq<Field<Json>>, string)>)
    ensures r.Some? ==> |r.value.1| < |s| && r.value.0 != []
    decreases |s|, 2
  {
    match DecodeMember(p, s, depth)
    case None => None
    case Some((member, rest)) =>
      if rest == "" then None
      else if rest[0] == '}' then Some(([member], rest[1..]))
      else if rest[0] != ',' then None
      else match DecodeMembers(p, rest[1..], depth)
        case None => None
        case Some((members, rest')) => Some(([member] + members, rest'))
  }
}
