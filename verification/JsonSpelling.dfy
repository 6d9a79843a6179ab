/** How the canonical texts spell characters, and one text in full. */
module JsonSpelling {
  import opened Wrappers
  import opened Text
  import opened CanonicalJson

  predicate AnyHexDigit(c: char) { '0' <= c <= '9' || 'a' <= c <= 'f' || 'A' <= c <= 'F' }

  function AnyHexValue(c: char): (n: int)
    requires AnyHexDigit(c)
    ensures 0 <= n < 16
  {
    if c <= '9' then c as int - '0' as int
    else if c <= 'F' then c as int - 'A' as int + 10
    else c as int - 'a' as int + 10
  }

  /** The character a JSON reader takes one unit of a string for: bare, or an escape (RFC 8259, section 7). */
  function Spelled(s: string): Option<int> {
    if |s| == 1 && s[0] != '"' && s[0] != '\\' && s[0] as int >= 0x20 then Some(s[0] as int)
    else if |s| == 2 && s[0] == '\\' then
      (match s[1]
       case '"' => Some('"' as int)
       case '\\' => Some('\\' as int)
       case '/' => Some('/' as int)
       case 'b' => Some(8)
       case 'f' => Some(12)
       case 'n' => Some(10)
       case 'r' => Some(13)
       case 't' => Some(9)
       case _ => None)
    else if |s| == 6 && s[..2] == "\\u"
            && AnyHexDigit(s[2]) && AnyHexDigit(s[3]) && AnyHexDigit(s[4]) && AnyHexDigit(s[5])
    then Some(4096 * AnyHexValue(s[2]) + 256 * AnyHexValue(s[3]) + 16 * AnyHexValue(s[4]) + AnyHexValue(s[5]))
    else None
  }

  predicate NoCapitalHex(s: string) { |s| == 6 ==> forall i | 2 <= i < 6 :: !('A' <= s[i] <= 'F') }

  /** Each character gets the shortest spelling there is, hex in lowercase; that spelling is unique. */
  lemma EscapeExactly(c: char, s: string)
    ensures EscapeChar(c) == s <==>
      Spelled(s) == Some(c as int) && NoCapitalHex(s) && forall t | Spelled(t) == Some(c as int) :: |s| <= |t|
  {
    EscapeSpells(c);
    forall t | Spelled(t) == Some(c as int) ensures |EscapeChar(c)| <= |t| { EscapeIsShortest(c, t); }
    if Spelled(s) == Some(c as int) && NoCapitalHex(s) && forall t | Spelled(t) == Some(c as int) :: |s| <= |t| {
      assert |s| <= |EscapeChar(c)|;
      OneShortest(c, s);
    }
  }

  lemma EscapeSpells(c: char)
    ensures Spelled(EscapeChar(c)) == Some(c as int) && NoCapitalHex(EscapeChar(c))
  {
    var s := EscapeChar(c);
    if |s| == 6 {
      assert s[..2] == "\\u" && s[2] == '0' && s[3] == '0';
    }
  }

  lemma EscapeIsShortest(c: char, t: string)
    requires Spelled(t) == Some(c as int)
    ensures |EscapeChar(c)| <= |t|
  {}

  lemma OneShortest(c: char, s: string)
    requires Spelled(s) == Some(c as int) && NoCapitalHex(s) && |s| <= |EscapeChar(c)|
    ensures s == EscapeChar(c)
  {
    if |s| == 6 {
      SixHexDigits(c, s);
    }
  }

  /** A \u escape of a control character in lowercase hex. */
  lemma SixHexDigits(c: char, s: string)
    requires |s| == 6 && Spelled(s) == Some(c as int) && NoCapitalHex(s) && c as int < 0x20
    ensures s == "\\u00" + [HexDigit(c as int / 16), HexDigit(c as int % 16)]
  {
    assert s == s[..2] + [s[2], s[3], s[4], s[5]];
    assert AnyHexValue(s[2]) == 0 && AnyHexValue(s[3]) == 0;
  }

  // ---- Layout ---------------------------------------------------------------------------------------

  predicate Shallow(p: Profile, depth: nat) { p.Policy? || depth <= 12 }

  lemma ScalarLayout(p: Profile, n: nat, depth: nat)
    requires Shallow(p, depth)
    ensures Canonical(p, JNull, depth) == Some("null") && Canonical(p, JNegativeZero, depth) == Some("0")
    ensures Canonical(p, JBool(true), depth) == Some("true") && Canonical(p, JBool(false), depth) == Some("false")
    ensures n <= 9007199254740991 ==> Canonical(p, JInt(n), depth) == Some(Decimal(n))
  {}

  /** An array is its items' texts between commas and square brackets. */
  lemma ArrayLayout(p: Profile, items: seq<Json>, texts: seq<string>, depth: nat)
    requires Shallow(p, depth) && |texts| == |items|
    requires forall i | 0 <= i < |items| :: Canonical(p, items[i], depth + 1) == Some(texts[i])
    ensures Canonical(p, JArray(items), depth) == Some("[" + Join(texts, ",") + "]")
  {
    ItemsOneByOne(p, items, texts, depth + 1);
  }

  lemma {:induction false} ItemsOneByOne(p: Profile, items: seq<Json>, texts: seq<string>, depth: nat)
    requires |texts| == |items|
    requires forall i | 0 <= i < |items| :: Canonical(p, items[i], depth) == Some(texts[i])
    ensures CanonicalItems(p, items, depth) == Some(texts)
  {
    hide Canonical;
    if items != [] {
      ItemsOneByOne(p, items[1..], texts[1..], depth);
      assert texts == [texts[0]] + texts[1..];
    }
  }

  /** The member's text among the texts of an object. */
  ghost predicate Printed(p: Profile, m: Field<Json>, fields: seq<Field<string>>, depth: nat) {
    exists f | f in fields :: f.key == m.key && Canonical(p, m.value, depth) == Some(f.value)
  }

  /** An object is its members' texts in ascending order of keys, between commas and braces. */
  lemma ObjectLayout(p: Profile, members: seq<Field<Json>>, fields: seq<Field<string>>, parts: seq<string>, depth: nat)
    requires Shallow(p, depth) && |parts| == |fields| == |members|
    requires forall i, j | 0 <= i < j < |members| :: members[i].key != members[j].key
    requires forall i, j | 0 <= i < j < |fields| :: Less(fields[i].key, fields[j].key)
    requires forall m | m in members :: AllowedText(p, m.key) && Printed(p, m, fields, depth + 1)
    requires forall i | 0 <= i < |fields| :: parts[i] == Quote(fields[i].key) + ":" + fields[i].value
    ensures Canonical(p, JObject(true, members), depth) == Some("{" + Join(parts, ",") + "}")
  {
    var printed := MembersOneByOne(p, members, fields, depth + 1);
    hide *;
    SortedIs(printed, fields);
    PartsOf(fields, parts);
    AsPrinted(p, members, printed, depth);
  }

  lemma AsPrinted(p: Profile, members: seq<Field<Json>>, printed: seq<Field<string>>, depth: nat)
    requires Shallow(p, depth) && CanonicalMembers(p, members, depth + 1) == Some(printed)
    ensures Canonical(p, JObject(true, members), depth)
      == Some("{" + Join(MemberTexts(SortFields(printed)), ",") + "}")
  {
    hide Join, MemberTexts, SortFields, CanonicalMembers;
  }

  lemma SortedIs(printed: seq<Field<string>>, fields: seq<Field<string>>)
    requires |printed| == |fields| && forall i, j | 0 <= i < j < |fields| :: Less(fields[i].key, fields[j].key)
    requires forall i, j | 0 <= i < j < |printed| :: printed[i].key != printed[j].key
    requires forall i | 0 <= i < |printed| :: printed[i] in fields
    ensures SortFields(printed) == fields
  {
    SortAscends(printed);
    forall f | f in SortFields(printed) ensures f in fields { assert f in multiset(printed); }
    AscendingUnique(SortFields(printed), fields);
  }

  lemma PartsOf(fields: seq<Field<string>>, parts: seq<string>)
    requires |parts| == |fields|
    requires forall i | 0 <= i < |fields| :: parts[i] == Quote(fields[i].key) + ":" + fields[i].value
    ensures MemberTexts(fields) == parts
  {
    hide Quote;
  }

  lemma {:induction false} MembersOneByOne(p: Profile, members: seq<Field<Json>>, fields: seq<Field<string>>,
                                           depth: nat)
    returns (printed: seq<Field<string>>)
    requires forall m | m in members :: AllowedText(p, m.key) && Printed(p, m, fields, depth)
    ensures CanonicalMembers(p, members, depth) == Some(printed) && |printed| == |members|
    ensures forall i | 0 <= i < |members| :: printed[i].key == members[i].key && printed[i] in fields
  {
    hide Canonical, AllowedText;
    printed := [];
    if members != [] {
      var rest := MembersOneByOne(p, members[1..], fields, depth);
      assert members[0] in members;
      var f :| f in fields && f.key == members[0].key && Canonical(p, members[0].value, depth) == Some(f.value);
      printed := [f] + rest;
    }
  }
}
