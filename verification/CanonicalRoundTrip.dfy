/**
 * What the canonical encoders promise: the decoder inverts them in front of any
 * following text, it accepts nothing else, and two values share their text
 * exactly when they hold the same data.
 */
module CanonicalRoundTrip {
  import opened Wrappers
  import opened Numbers
  import opened Text
  import opened CanonicalJson

  /** The value a canonical text stands for: keys sorted, -0 and prototypes forgotten. */
  function Norm(v: Json): Json
    decreases v
  {
    match v
    case JNegativeZero => JInt(0)
    case JArray(items) => JArray(NormItems(items))
    case JObject(_, members) => JObject(true, SortFields(NormMembers(members)))
    case _ => v
  }

  function NormItems(items: seq<Json>): (r: seq<Json>)
    ensures |r| == |items|
    ensures forall i | 0 <= i < |items| :: r[i] == Norm(items[i])
    decreases items
  {
    if items == [] then [] else [Norm(items[0])] + NormItems(items[1..])
  }

  function NormMembers(members: seq<Field<Json>>): (r: seq<Field<Json>>)
    ensures |r| == |members|
    ensures forall i | 0 <= i < |members| :: r[i] == Field(members[i].key, Norm(members[i].value))
    decreases members
  {
    if members == [] then []
    else [Field(members[0].key, Norm(members[0].value))] + NormMembers(members[1..])
  }

  /** The same data: equal up to the order of keys, the sign of zero and prototypes. */
  ghost predicate SameData(v: Json, w: Json)
    decreases v
  {
    match v
    case JNegativeZero => w == JInt(0) || w == JNegativeZero
    case JInt(n) => w == v || (n == 0 && w == JNegativeZero)
    case JArray(items) =>
      w.JArray? && |w.items| == |items| && forall i | 0 <= i < |items| :: SameData(items[i], w.items[i])
    case JObject(_, members) =>
      && w.JObject? && |w.members| == |members|
      && forall m | m in members :: exists n | n in w.members :: n.key == m.key && SameData(m.value, n.value)
    case _ => w == v
  }

  // ---- Reading back strings and numbers -----------------------------------------

  lemma CandidateOfEscape(c: char, rest: string)
    ensures Candidate(EscapeChar(c) + rest) == c
  {
    if c as int < 0x20 {
      var s := EscapeChar(c) + rest;
      if c as int !in {8, 9, 10, 12, 13} {
        assert s[4] == HexDigit(c as int / 16) && s[5] == HexDigit(c as int % 16);
      }
    }
  }

  lemma {:induction false} CharsReadBack(p: Profile, s: string, rest: string)
    requires AllowedText(p, s)
    ensures DecodeChars(p, EscapeText(s) + "\"" + rest) == Some((s, rest))
  {
    hide EscapeChar, EscapeText, DecodeChars, AllowedChar;
    if s == "" {
      CharsEnd(p, rest);
    } else {
      assert AllowedChar(p, s[0]);
      EscapedHead(s, "\"" + rest);
      Three(EscapeText(s), "\"", rest);
      Three(EscapeText(s[1..]), "\"", rest);
      CharsReadBack(p, s[1..], rest);
      CharsStep(p, s[0], EscapeText(s[1..]) + "\"" + rest);
      assert s == [s[0]] + s[1..];
    }
  }

  lemma CharsEnd(p: Profile, rest: string)
    ensures DecodeChars(p, EscapeText("") + "\"" + rest) == Some(("", rest))
  {
    var input := EscapeText("") + "\"" + rest;
    assert input == "\"" + rest && input[1..] == rest;
  }

  lemma Three(a: string, b: string, c: string)
    ensures a + b + c == a + (b + c)
  {}

  lemma EscapedHead(s: string, close: string)
    requires s != ""
    ensures EscapeText(s) + close == EscapeChar(s[0]) + (EscapeText(s[1..]) + close)
  {
    hide EscapeChar;
  }

  /** An escaped character is read back whatever follows. */
  lemma CharsStep(p: Profile, c: char, tail: string)
    requires AllowedChar(p, c) && DecodeChars(p, tail).Some?
    ensures var (text, rest) := DecodeChars(p, tail).value;
      DecodeChars(p, EscapeChar(c) + tail) == Some(([c] + text, rest))
  {
    hide EscapeChar, Candidate, AllowedChar;
    CandidateOfEscape(c, tail);
    var input := EscapeChar(c) + tail;
    assert input[|EscapeChar(c)|..] == tail && EscapeChar(c) <= input && input[0] == EscapeChar(c)[0];
  }

  lemma QuotedReadsBack(p: Profile, s: string, rest: string)
    requires AllowedText(p, s)
    ensures DecodeQuoted(p, Quote(s) + rest) == Some((s, rest))
  {
    hide DecodeChars, EscapeText, AllowedText;
    CharsReadBack(p, s, rest);
    assert (Quote(s) + rest)[1..] == EscapeText(s) + "\"" + rest;
  }

  lemma {:induction false} DigitRunStops(s: string, rest: string)
    requires AllDigits(s) && !StartsWithDigit(rest)
    ensures DigitRun(s + rest) == |s|
  {
    if s == "" {
      assert s + rest == rest;
    } else {
      DigitRunStops(s[1..], rest);
      assert (s + rest)[1..] == s[1..] + rest;
      assert s[0] in s;
    }
  }

  lemma NumberReadsBack(n: nat, rest: string)
    requires n <= MAX_SAFE_INTEGER && !StartsWithDigit(rest)
    ensures StartsWithDigit(Decimal(n) + rest)
    ensures DecodeNumber(Decimal(n) + rest) == Some((JInt(n), rest))
  {
    var s := Decimal(n);
    assert s[0] in s;
    DigitRunStops(s, rest);
    DecimalValue(n);
    assert (s + rest)[..|s|] == s && (s + rest)[|s|..] == rest;
  }

  // ---- Reading back values -------------------------------------------------------

  /** A text may follow a value unless it would lengthen a number. */
  predicate MayFollow(n: Json, rest: string) { n.JInt? ==> !StartsWithDigit(rest) }

  /** text reads back as n in front of everything that may follow it. */
  ghost predicate Reads(p: Profile, depth: nat, text: string, n: Json) {
    && text != "" && text[0] !in "]},:"
    && forall rest: string | MayFollow(n, rest) :: DecodeValue(p, text + rest, depth) == Some((n, rest))
  }

  lemma ReadsAt(p: Profile, depth: nat, text: string, n: Json, rest: string, input: string)
    requires Reads(p, depth, text, n) && MayFollow(n, rest) && input == text + rest
    ensures DecodeValue(p, input, depth) == Some((n, rest))
  {}

  lemma JoinCons(texts: seq<string>, close: string)
    requires |texts| > 1
    ensures Join(texts, ",") + close == texts[0] + ("," + (Join(texts[1..], ",") + close))
  {}

  lemma LastItem(p: Profile, depth: nat, s: string, item: Json, rest: string)
    requires DecodeValue(p, s, depth) == Some((item, "]" + rest))
    ensures DecodeItems(p, s, depth) == Some(([item], rest))
  {
    assert ("]" + rest)[1..] == rest;
  }

  lemma NextItem(p: Profile, depth: nat, s: string, item: Json, tail: string, items: seq<Json>, rest: string)
    requires DecodeValue(p, s, depth) == Some((item, "," + tail))
    requires DecodeItems(p, tail, depth) == Some((items, rest))
    ensures DecodeItems(p, s, depth) == Some(([item] + items, rest))
  {
    assert ("," + tail)[1..] == tail;
  }

  lemma LastMember(p: Profile, depth: nat, s: string, member: Field<Json>, rest: string)
    requires DecodeMember(p, s, depth) == Some((member, "}" + rest))
    ensures DecodeMembers(p, s, depth) == Some(([member], rest))
  {
    assert ("}" + rest)[1..] == rest;
  }

  lemma NextMember(p: Profile, depth: nat, s: string, member: Field<Json>, tail: string,
                   members: seq<Field<Json>>, rest: string)
    requires DecodeMember(p, s, depth) == Some((member, "," + tail))
    requires DecodeMembers(p, tail, depth) == Some((members, rest))
    ensures DecodeMembers(p, s, depth) == Some(([member] + members, rest))
  {
    assert ("," + tail)[1..] == tail;
  }

  lemma {:induction false} ItemsReadBack(p: Profile, depth: nat, texts: seq<string>, norms: seq<Json>, rest: string)
    requires |texts| == |norms| > 0
    requires forall i | 0 <= i < |texts| :: Reads(p, depth, texts[i], norms[i])
    ensures DecodeItems(p, Join(texts, ",") + ("]" + rest), depth) == Some((norms, rest))
  {
    var close := "]" + rest;
    var input := Join(texts, ",") + close;
    if |texts| == 1 {
      ReadsAt(p, depth, texts[0], norms[0], close, input);
      LastItem(p, depth, input, norms[0], rest);
      assert [norms[0]] == norms;
    } else {
      var tail := Join(texts[1..], ",") + close;
      JoinCons(texts, close);
      ReadsAt(p, depth, texts[0], norms[0], "," + tail, input);
      ItemsReadBack(p, depth, texts[1..], norms[1..], rest);
      NextItem(p, depth, input, norms[0], tail, norms[1..], rest);
      assert [norms[0]] + norms[1..] == norms;
    }
  }

  lemma MemberReadsBack(p: Profile, depth: nat, key: string, text: string, n: Json, rest: string)
    requires AllowedText(p, key) && Reads(p, depth, text, n) && MayFollow(n, rest)
    ensures DecodeMember(p, Quote(key) + ":" + text + rest, depth) == Some((Field(key, n), rest))
  {
    hide DecodeValue;
    hide DecodeQuoted;
    var after := ":" + text + rest;
    assert Quote(key) + ":" + text + rest == Quote(key) + after;
    QuotedReadsBack(p, key, after);
    assert after[1..] == text + rest;
  }

  lemma {:induction false} MembersReadBack(
      p: Profile, depth: nat, fields: seq<Field<string>>, norms: seq<Field<Json>>, rest: string)
    requires |fields| == |norms| > 0
    requires forall i | 0 <= i < |fields| ::
      fields[i].key == norms[i].key && AllowedText(p, fields[i].key) && Reads(p, depth, fields[i].value, norms[i].value)
    ensures DecodeMembers(p, Join(MemberTexts(fields), ",") + ("}" + rest), depth) == Some((norms, rest))
  {
    hide DecodeMembers;
    hide DecodeMember;
    hide Quote;
    hide Reads;
    var texts, close := MemberTexts(fields), "}" + rest;
    var input := Join(texts, ",") + close;
    var key, text := fields[0].key, fields[0].value;
    if |fields| == 1 {
      MemberReadsBack(p, depth, key, text, norms[0].value, close);
      assert input == Quote(key) + ":" + text + close;
      LastMember(p, depth, input, norms[0], rest);
      assert [norms[0]] == norms;
    } else {
      assert texts[1..] == MemberTexts(fields[1..]);
      var tail := Join(texts[1..], ",") + close;
      JoinCons(texts, close);
      MemberReadsBack(p, depth, key, text, norms[0].value, "," + tail);
      assert input == Quote(key) + ":" + text + ("," + tail);
      MembersReadBack(p, depth, fields[1..], norms[1..], rest);
      NextMember(p, depth, input, norms[0], tail, norms[1..], rest);
      assert [norms[0]] + norms[1..] == norms;
    }
  }

  /** The decoder inverts both encoders, whatever follows the text. */
  lemma {:induction false} CanonicalReadsBack(p: Profile, v: Json, depth: nat, text: string)
    requires Canonical(p, v, depth) == Some(text) && DistinctKeys(v)
    ensures Reads(p, depth, text, Norm(v))
    decreases v
  {
    match v {
      case JNull => PrefixReads(p, depth, text, JNull);
      case JBool(flag) => PrefixReads(p, depth, text, v);
      case JInt(n) => NumberReads(p, depth, n);
      case JNegativeZero =>
        assert Decimal(0) == "0";
        NumberReads(p, depth, 0);
      case JString(s) =>
        forall rest: string ensures DecodeValue(p, text + rest, depth) == Some((v, rest)) {
          QuotedReadsBack(p, s, rest);
        }
      case JArray(items) =>
        ArrayReadsBack(p, items, depth, text);
      case JObject(plain, members) =>
        ObjectReadsBack(p, plain, members, depth, text);
    }
  }

  lemma PrefixReads(p: Profile, depth: nat, text: string, n: Json)
    requires !TooDeep(p, depth)
    requires (text, n) in {("null", JNull), ("true", JBool(true)), ("false", JBool(false))}
    ensures Reads(p, depth, text, n)
  {
    forall rest: string ensures DecodeValue(p, text + rest, depth) == Some((n, rest)) {
      var s := text + rest;
      assert text <= s && s[|text|..] == rest;
      assert s[0] == text[0];
    }
  }

  lemma NumberReads(p: Profile, depth: nat, n: nat)
    requires !TooDeep(p, depth) && n <= MAX_SAFE_INTEGER
    ensures Reads(p, depth, Decimal(n), JInt(n))
  {
    assert Decimal(n)[0] in Decimal(n);
    forall rest: string | !StartsWithDigit(rest)
      ensures DecodeValue(p, Decimal(n) + rest, depth) == Some((JInt(n), rest))
    {
      NumberReadsBack(n, rest);
      var s := Decimal(n) + rest;
      assert s[0] == Decimal(n)[0];
    }
  }

  lemma {:induction false} ArrayReadsBack(p: Profile, items: seq<Json>, depth: nat, text: string)
    requires Canonical(p, JArray(items), depth) == Some(text) && DistinctKeys(JArray(items))
    ensures Reads(p, depth, text, Norm(JArray(items)))
    decreases items
  {
    var texts := CanonicalItems(p, items, depth + 1).value;
    var norms := NormItems(items);
    ItemTextsRead(p, items, depth + 1);
    if items != [] {
      assert Reads(p, depth + 1, texts[0], norms[0]);
      JoinStart(texts);
    }
    forall rest: string ensures DecodeValue(p, text + rest, depth) == Some((JArray(norms), rest)) {
      if items != [] {
        ItemsReadBack(p, depth + 1, texts, norms, rest);
      }
      ArrayAt(p, texts, norms, depth, rest);
    }
  }

  lemma ArrayAt(p: Profile, texts: seq<string>, norms: seq<Json>, depth: nat, rest: string)
    requires !TooDeep(p, depth) && |texts| == |norms|
    requires texts != [] ==> Join(texts, ",") != "" && Join(texts, ",")[0] != ']'
    requires texts != [] ==> DecodeItems(p, Join(texts, ",") + ("]" + rest), depth + 1) == Some((norms, rest))
    ensures DecodeValue(p, "[" + Join(texts, ",") + "]" + rest, depth) == Some((JArray(norms), rest))
  {
    hide DecodeItems;
    var body := Join(texts, ",") + ("]" + rest);
    assert "[" + Join(texts, ",") + "]" + rest == "[" + body;
    hide Join;
    if texts == [] {
      EmptyBrackets(p, rest, depth);
      assert norms == [];
    } else {
      assert body[0] == Join(texts, ",")[0];
      OpenBracket(p, body, depth);
    }
  }

  lemma EmptyBrackets(p: Profile, rest: string, depth: nat)
    requires !TooDeep(p, depth)
    ensures DecodeValue(p, "[" + ("]" + rest), depth) == Some((JArray([]), rest))
  {
    var s := "[" + ("]" + rest);
    assert s[0] == '[' && s[..2] == "[]" && "[]" <= s && s[2..] == rest;
  }

  lemma OpenBracket(p: Profile, body: string, depth: nat)
    requires !TooDeep(p, depth) && body != "" && body[0] != ']' && DecodeItems(p, body, depth + 1).Some?
    ensures DecodeValue(p, "[" + body, depth)
      == Some((JArray(DecodeItems(p, body, depth + 1).value.0), DecodeItems(p, body, depth + 1).value.1))
  {
    hide DecodeItems;
    var s := "[" + body;
    assert s[0] == '[' && s[1] == body[0] && s[1..] == body;
    assert !("[]" <= s);
  }

  lemma {:induction false} ItemTextsRead(p: Profile, items: seq<Json>, depth: nat)
    requires CanonicalItems(p, items, depth).Some? && forall item | item in items :: DistinctKeys(item)
    ensures forall i | 0 <= i < |items| ::
      Reads(p, depth, CanonicalItems(p, items, depth).value[i], NormItems(items)[i])
    decreases items, 0
  {
    if items != [] {
      CanonicalReadsBack(p, items[0], depth, Canonical(p, items[0], depth).value);
      ItemTextsRead(p, items[1..], depth);
    }
  }

  lemma JoinStart(texts: seq<string>)
    requires texts != [] && texts[0] != ""
    ensures Join(texts, ",") != "" && Join(texts, ",")[0] == texts[0][0]
  {}

  lemma {:induction false} ObjectReadsBack(
      p: Profile, plain: bool, members: seq<Field<Json>>, depth: nat, text: string)
    requires Canonical(p, JObject(plain, members), depth) == Some(text) && DistinctKeys(JObject(plain, members))
    ensures Reads(p, depth, text, Norm(JObject(plain, members)))
    decreases members
  {
    var fields := CanonicalMembers(p, members, depth + 1).value;
    var sorted, norms := SortFields(fields), SortFields(NormMembers(members));
    SortedMembersRead(p, members, depth + 1);
    SortAscends(NormMembers(members));
    SortedTextsRead(p, sorted, norms, depth);
  }

  lemma SortedTextsRead(p: Profile, sorted: seq<Field<string>>, norms: seq<Field<Json>>, depth: nat)
    requires !TooDeep(p, depth) && |sorted| == |norms| && NeighboursAscend(norms)
    requires forall i | 0 <= i < |sorted| ::
      && sorted[i].key == norms[i].key && AllowedText(p, sorted[i].key)
      && Reads(p, depth + 1, sorted[i].value, norms[i].value)
    ensures Reads(p, depth, "{" + Join(MemberTexts(sorted), ",") + "}", JObject(true, norms))
  {
    var texts := MemberTexts(sorted);
    if sorted != [] {
      JoinStart(texts);
    }
    forall rest: string
      ensures DecodeValue(p, "{" + Join(texts, ",") + "}" + rest, depth) == Some((JObject(true, norms), rest))
    {
      if sorted != [] {
        MembersReadBack(p, depth + 1, sorted, norms, rest);
      }
      ObjectAt(p, texts, norms, depth, rest);
    }
  }

  lemma SortedMembersRead(p: Profile, members: seq<Field<Json>>, depth: nat)
    requires CanonicalMembers(p, members, depth).Some? && forall m | m in members :: DistinctKeys(m.value)
    ensures forall i | 0 <= i < |members| ::
      var f, n := SortFields(CanonicalMembers(p, members, depth).value)[i], SortFields(NormMembers(members))[i];
      f.key == n.key && AllowedText(p, f.key) && Reads(p, depth, f.value, n.value)
    decreases members, 1
  {
    MemberTextsRead(p, members, depth);
    SortInStep(CanonicalMembers(p, members, depth).value, NormMembers(members),
               (f: Field<string>, n: Field<Json>) => AllowedText(p, f.key) && Reads(p, depth, f.value, n.value));
  }

  lemma ObjectAt(p: Profile, texts: seq<string>, norms: seq<Field<Json>>, depth: nat, rest: string)
    requires !TooDeep(p, depth) && |texts| == |norms| && NeighboursAscend(norms)
    requires texts != [] ==> Join(texts, ",") != "" && Join(texts, ",")[0] != '}'
    requires texts != [] ==> DecodeMembers(p, Join(texts, ",") + ("}" + rest), depth + 1) == Some((norms, rest))
    ensures DecodeValue(p, "{" + Join(texts, ",") + "}" + rest, depth) == Some((JObject(true, norms), rest))
  {
    hide DecodeMembers;
    hide NeighboursAscend;
    var body := Join(texts, ",") + ("}" + rest);
    assert "{" + Join(texts, ",") + "}" + rest == "{" + body;
    hide Join;
    if texts == [] {
      EmptyBraces(p, rest, depth);
      assert norms == [];
    } else {
      assert body[0] == Join(texts, ",")[0];
      OpenBrace(p, body, depth);
    }
  }

  lemma EmptyBraces(p: Profile, rest: string, depth: nat)
    requires !TooDeep(p, depth)
    ensures DecodeValue(p, "{" + ("}" + rest), depth) == Some((JObject(true, []), rest))
  {
    var s := "{" + ("}" + rest);
    assert s[0] == '{' && s[..2] == "{}" && "{}" <= s && s[2..] == rest;
  }

  lemma OpenBrace(p: Profile, body: string, depth: nat)
    requires !TooDeep(p, depth) && body != "" && body[0] != '}'
    requires DecodeMembers(p, body, depth + 1).Some? && NeighboursAscend(DecodeMembers(p, body, depth + 1).value.0)
    ensures DecodeValue(p, "{" + body, depth)
      == Some((JObject(true, DecodeMembers(p, body, depth + 1).value.0), DecodeMembers(p, body, depth + 1).value.1))
  {
    hide DecodeMembers;
    hide NeighboursAscend;
    var s := "{" + body;
    assert s[0] == '{' && s[1] == body[0] && s[1..] == body;
    assert !("{}" <= s);
  }

  /** Member i of an object keeps its key, and its text reads back. */
  ghost predicate MemberReads(p: Profile, depth: nat, member: Field<Json>, f: Field<string>, n: Field<Json>) {
    f.key == member.key && AllowedText(p, f.key) && Reads(p, depth, f.value, n.value)
  }

  lemma {:induction false} MemberTextsRead(p: Profile, members: seq<Field<Json>>, depth: nat)
    requires CanonicalMembers(p, members, depth).Some? && forall m | m in members :: DistinctKeys(m.value)
    ensures forall i | 0 <= i < |members| ::
      MemberReads(p, depth, members[i], CanonicalMembers(p, members, depth).value[i], NormMembers(members)[i])
    decreases members, 0
  {
    if members != [] {
      var head, tail := members[0], members[1..];
      CanonicalReadsBack(p, head.value, depth, Canonical(p, head.value, depth).value);
      MemberTextsRead(p, tail, depth);
      hide *;
      MembersCons(p, members, depth);
      MoreMembersRead(p, depth, members, CanonicalMembers(p, members, depth).value, NormMembers(members));
    }
  }

  lemma MembersCons(p: Profile, members: seq<Field<Json>>, depth: nat)
    requires members != [] && CanonicalMembers(p, members, depth).Some?
    ensures Canonical(p, members[0].value, depth).Some? && AllowedText(p, members[0].key)
    ensures CanonicalMembers(p, members[1..], depth).Some?
    ensures CanonicalMembers(p, members, depth).value
      == [Field(members[0].key, Canonical(p, members[0].value, depth).value)]
         + CanonicalMembers(p, members[1..], depth).value
    ensures NormMembers(members) == [Field(members[0].key, Norm(members[0].value))] + NormMembers(members[1..])
  {
    hide Canonical, Norm, AllowedText;
  }

  lemma MoreMembersRead(p: Profile, depth: nat, members: seq<Field<Json>>, fields: seq<Field<string>>,
                        norms: seq<Field<Json>>)
    requires |members| == |fields| == |norms| > 0 && fields[0].key == members[0].key && AllowedText(p, members[0].key)
    requires Reads(p, depth, fields[0].value, norms[0].value)
    requires forall i | 0 <= i < |members| - 1 ::
      MemberReads(p, depth, members[1..][i], fields[1..][i], norms[1..][i])
    ensures forall i | 0 <= i < |members| :: MemberReads(p, depth, members[i], fields[i], norms[i])
  {
    hide Reads, AllowedText;
    forall i | 0 <= i < |members| ensures MemberReads(p, depth, members[i], fields[i], norms[i]) {
      if i > 0 { assert MemberReads(p, depth, members[1..][i - 1], fields[1..][i - 1], norms[1..][i - 1]); }
    }
  }

  // ---- The decoder accepts canonical texts only ------------------------------------

  /** s is the canonical text of the normal value v, followed by rest. */
  ghost predicate Prints(p: Profile, s: string, depth: nat, v: Json, rest: string) {
    && DistinctKeys(v) && Norm(v) == v
    && Canonical(p, v, depth).Some? && s == Canonical(p, v, depth).value + rest
  }

  lemma {:induction false} CharsAreEscaped(p: Profile, s: string)
    requires DecodeChars(p, s).Some?
    ensures var (text, rest) := DecodeChars(p, s).value;
      AllowedText(p, text) && s == EscapeText(text) + ("\"" + rest)
    decreases |s|
  {
    hide EscapeChar;
    hide Candidate;
    if s[0] != '"' {
      var c := Candidate(s);
      var tail := s[|EscapeChar(c)|..];
      CharsAreEscaped(p, tail);
      var (text, rest) := DecodeChars(p, tail).value;
      EscapedCons(c, text, "\"" + rest, tail);
      assert s == EscapeChar(c) + tail;
    }
  }

  lemma EscapedCons(c: char, text: string, close: string, tail: string)
    requires tail == EscapeText(text) + close
    ensures EscapeChar(c) + tail == EscapeText([c] + text) + close
  {
    hide EscapeChar;
    assert ([c] + text)[1..] == text;
  }

  lemma QuotedIsQuote(p: Profile, s: string)
    requires DecodeQuoted(p, s).Some?
    ensures var (text, rest) := DecodeQuoted(p, s).value;
      AllowedText(p, text) && s == Quote(text) + rest
  {
    hide DecodeChars, EscapeText, AllowedText;
    CharsAreEscaped(p, s[1..]);
    var (text, rest) := DecodeQuoted(p, s).value;
    assert s == "\"" + s[1..];
    QuoteParts(EscapeText(text), rest);
  }

  lemma QuoteParts(escaped: string, rest: string)
    ensures "\"" + (escaped + ("\"" + rest)) == "\"" + escaped + "\"" + rest
  {}

  lemma NumberIsDecimal(p: Profile, s: string, depth: nat)
    requires !TooDeep(p, depth) && StartsWithDigit(s) && DecodeNumber(s).Some?
    ensures Prints(p, s, depth, DecodeNumber(s).value.0, DecodeNumber(s).value.1)
  {
    var k := DigitRun(s);
    NumeralIsDecimal(s[..k]);
    assert s == s[..k] + s[k..];
  }

  /** Whatever the decoder accepts is the canonical text of what it returns. */
  lemma LiteralPrints(p: Profile, s: string, depth: nat, text: string, v: Json)
    requires !TooDeep(p, depth) && text <= s
    requires (text, v) in {("null", JNull), ("true", JBool(true)), ("false", JBool(false))}
    ensures Prints(p, s, depth, v, s[|text|..])
  {
    assert s == text + s[|text|..];
  }

  lemma QuotedPrints(p: Profile, s: string, depth: nat)
    requires !TooDeep(p, depth) && DecodeQuoted(p, s).Some?
    ensures Prints(p, s, depth, JString(DecodeQuoted(p, s).value.0), DecodeQuoted(p, s).value.1)
  {
    QuotedIsQuote(p, s);
    hide DecodeQuoted, Quote, AllowedText;
  }

  lemma EmptyPrints(p: Profile, s: string, depth: nat)
    requires !TooDeep(p, depth)
    ensures "[]" <= s ==> Prints(p, s, depth, JArray([]), s[2..])
    ensures "{}" <= s ==> Prints(p, s, depth, JObject(true, []), s[2..])
  {
    assert CanonicalItems(p, [], depth + 1) == Some([]) && CanonicalMembers(p, [], depth + 1) == Some([]);
    assert "[]" <= s ==> s == "[]" + s[2..];
    assert "{}" <= s ==> s == "{}" + s[2..];
  }

  /** Whatever the decoder accepts is the canonical text of what it returns. */
  lemma {:induction false} DecodedIsCanonical(p: Profile, s: string, depth: nat)
    requires DecodeValue(p, s, depth).Some?
    ensures Prints(p, s, depth, DecodeValue(p, s, depth).value.0, DecodeValue(p, s, depth).value.1)
    decreases |s|, 1
  {
    hide Prints, DecodeNumber, DecodeQuoted, DecodeItems, DecodeMembers, NeighboursAscend;
    if "null" <= s {
      LiteralPrints(p, s, depth, "null", JNull);
    } else if "true" <= s {
      LiteralPrints(p, s, depth, "true", JBool(true));
    } else if "false" <= s {
      LiteralPrints(p, s, depth, "false", JBool(false));
    } else if IsDigit(s[0]) {
      NumberIsDecimal(p, s, depth);
    } else if s[0] == '"' {
      QuotedPrints(p, s, depth);
    } else if "[]" <= s || "{}" <= s {
      EmptyPrints(p, s, depth);
    } else if s[0] == '[' {
      DecodedArrayIsCanonical(p, s, depth);
    } else {
      DecodedObjectIsCanonical(p, s, depth);
    }
  }

  lemma {:induction false} DecodedArrayIsCanonical(p: Profile, s: string, depth: nat)
    requires !TooDeep(p, depth) && s != "" && s[0] == '[' && DecodeItems(p, s[1..], depth + 1).Some?
    ensures var (items, rest) := DecodeItems(p, s[1..], depth + 1).value;
      Prints(p, s, depth, JArray(items), rest)
    decreases |s|, 0
  {
    hide DecodeItems, CanonicalItems, Join;
    DecodedItemsAreCanonical(p, s[1..], depth + 1);
    var (items, rest) := DecodeItems(p, s[1..], depth + 1).value;
    assert s == "[" + s[1..];
    Assoc("[", Join(CanonicalItems(p, items, depth + 1).value, ","), "]", rest);
  }

  lemma {:induction false} DecodedItemsAreCanonical(p: Profile, s: string, depth: nat)
    requires DecodeItems(p, s, depth).Some?
    ensures ItemsPrint(p, s, depth, DecodeItems(p, s, depth).value.0, DecodeItems(p, s, depth).value.1)
    decreases |s|, 2
  {
    hide Prints, ItemsPrint, DecodeValue;
    var (item, rest) := DecodeValue(p, s, depth).value;
    DecodedIsCanonical(p, s, depth);
    if rest[0] == ']' {
      assert rest == "]" + rest[1..];
      LastItemPrints(p, s, depth, item, rest[1..]);
    } else {
      assert rest == "," + rest[1..];
      DecodedItemsAreCanonical(p, rest[1..], depth);
      var (items, rest') := DecodeItems(p, rest[1..], depth).value;
      NextItemPrints(p, s, depth, item, rest[1..], items, rest');
    }
  }

  /** s lists the canonical texts of normal items, then closes the array before rest. */
  ghost predicate ItemsPrint(p: Profile, s: string, depth: nat, items: seq<Json>, rest: string) {
    && NormItems(items) == items && (forall item | item in items :: DistinctKeys(item))
    && CanonicalItems(p, items, depth).Some?
    && s == Join(CanonicalItems(p, items, depth).value, ",") + ("]" + rest)
  }

  lemma LastItemPrints(p: Profile, s: string, depth: nat, item: Json, rest: string)
    requires Prints(p, s, depth, item, "]" + rest)
    ensures ItemsPrint(p, s, depth, [item], rest)
  {
    hide Canonical, Norm, DistinctKeys;
    var text := Canonical(p, item, depth).value;
    assert CanonicalItems(p, [], depth) == Some([]) && [item][1..] == [] && NormItems([]) == [];
    assert CanonicalItems(p, [item], depth) == Some([text] + []);
    assert [text] + [] == [text] && [item] + [] == [item];
  }

  lemma NextItemPrints(p: Profile, s: string, depth: nat, item: Json, tail: string, items: seq<Json>, rest: string)
    requires Prints(p, s, depth, item, "," + tail) && ItemsPrint(p, tail, depth, items, rest) && items != []
    ensures ItemsPrint(p, s, depth, [item] + items, rest)
  {
    hide Canonical, Norm, DistinctKeys, Join;
    var text, texts := Canonical(p, item, depth).value, CanonicalItems(p, items, depth).value;
    assert ([item] + items)[1..] == items && ([text] + texts)[1..] == texts;
    JoinCons([text] + texts, "]" + rest);
  }

  lemma {:induction false} DecodedObjectIsCanonical(p: Profile, s: string, depth: nat)
    requires !TooDeep(p, depth) && s != "" && s[0] == '{'
    requires DecodeMembers(p, s[1..], depth + 1).Some? && NeighboursAscend(DecodeMembers(p, s[1..], depth + 1).value.0)
    ensures var (members, rest) := DecodeMembers(p, s[1..], depth + 1).value;
      Prints(p, s, depth, JObject(true, members), rest)
    decreases |s|, 0
  {
    hide *;
    DecodedMembersAreCanonical(p, s[1..], depth + 1);
    var (members, rest) := DecodeMembers(p, s[1..], depth + 1).value;
    assert s == "{" + s[1..];
    FieldKeys(p, members, depth + 1);
    ObjectPrints(p, members, CanonicalMembers(p, members, depth + 1).value, depth, rest, s);
  }

  lemma ObjectPrints(p: Profile, members: seq<Field<Json>>, fields: seq<Field<string>>, depth: nat, rest: string,
                     s: string)
    requires !TooDeep(p, depth) && CanonicalMembers(p, members, depth + 1) == Some(fields)
    requires NeighboursAscend(members) && forall i | 0 <= i < |members| :: fields[i].key == members[i].key
    requires NormMembers(members) == members && forall m | m in members :: DistinctKeys(m.value)
    requires s == "{" + (Join(MemberTexts(fields), ",") + ("}" + rest))
    ensures Prints(p, s, depth, JObject(true, members), rest)
  {
    hide Canonical;
    hide NormMembers;
    hide MemberTexts;
    hide Join;
    hide NeighboursAscend;
    hide SortFields;
    NeighboursAreSorted(members);
    SameKeysAscend(members, fields);
    NeighboursAreSorted(fields);
    SortedObjectText(p, members, fields, depth);
    Assoc("{", Join(MemberTexts(fields), ","), "}", rest);
  }

  lemma NeighboursAreSorted<T>(fs: seq<Field<T>>)
    requires NeighboursAscend(fs)
    ensures SortFields(fs) == fs
    ensures forall i, j | 0 <= i < j < |fs| :: fs[i].key != fs[j].key
  {
    NeighboursSuffice(fs);
    SortKeepsAscending(fs);
    forall i, j | 0 <= i < j < |fs| ensures fs[i].key != fs[j].key {
      LessTotal(fs[i].key, fs[j].key);
    }
  }

  lemma SameKeysAscend<A, B>(fs: seq<Field<A>>, gs: seq<Field<B>>)
    requires NeighboursAscend(fs) && |fs| == |gs| && forall i | 0 <= i < |fs| :: fs[i].key == gs[i].key
    ensures NeighboursAscend(gs)
  {
    hide Less;
  }

  lemma SortedObjectText(p: Profile, members: seq<Field<Json>>, fields: seq<Field<string>>, depth: nat)
    requires !TooDeep(p, depth) && CanonicalMembers(p, members, depth + 1) == Some(fields)
    requires SortFields(fields) == fields
    ensures Canonical(p, JObject(true, members), depth) == Some("{" + Join(MemberTexts(fields), ",") + "}")
  {
    hide CanonicalMembers;
    hide SortFields;
    hide MemberTexts;
    hide Join;
  }

  lemma Assoc(a: string, b: string, c: string, d: string)
    ensures a + (b + (c + d)) == a + b + c + d
  {}

  lemma {:induction false} FieldKeys(p: Profile, members: seq<Field<Json>>, depth: nat)
    requires CanonicalMembers(p, members, depth).Some?
    ensures forall i | 0 <= i < |members| :: CanonicalMembers(p, members, depth).value[i].key == members[i].key
  {
    if members != [] {
      FieldKeys(p, members[1..], depth);
    }
  }

  lemma MemberIsCanonical(p: Profile, s: string, depth: nat)
    requires DecodeMember(p, s, depth).Some?
    ensures var (m, rest) := DecodeMember(p, s, depth).value;
      && AllowedText(p, m.key) && DistinctKeys(m.value) && Norm(m.value) == m.value
      && Canonical(p, m.value, depth).Some?
      && s == Quote(m.key) + ":" + Canonical(p, m.value, depth).value + rest
    decreases |s|, 2
  {
    hide DecodeValue;
    hide Canonical;
    hide Norm;
    hide DistinctKeys;
    QuotedIsQuote(p, s);
    var (key, tail) := DecodeQuoted(p, s).value;
    hide DecodeQuoted;
    DecodedIsCanonical(p, tail[1..], depth);
    var (value, rest) := DecodeValue(p, tail[1..], depth).value;
    assert tail == ":" + tail[1..];
    hide Quote;
    Assoc(Quote(key), ":", Canonical(p, value, depth).value, rest);
  }

  lemma {:induction false} DecodedMembersAreCanonical(p: Profile, s: string, depth: nat)
    requires DecodeMembers(p, s, depth).Some?
    ensures var (members, rest) := DecodeMembers(p, s, depth).value;
      && NormMembers(members) == members && (forall m | m in members :: DistinctKeys(m.value))
      && CanonicalMembers(p, members, depth).Some?
      && s == Join(MemberTexts(CanonicalMembers(p, members, depth).value), ",") + ("}" + rest)
    decreases |s|, 3
  {
    hide DecodeMember;
    hide Canonical;
    hide Norm;
    hide DistinctKeys;
    hide Quote;
    hide Join;
    hide MemberTexts;
    hide CanonicalMembers;
    MemberIsCanonical(p, s, depth);
    var (m, rest) := DecodeMember(p, s, depth).value;
    NoMembers(p, depth);
    if rest[0] == '}' {
      MemberTextsCons(p, depth, m, [], "}" + rest[1..]);
      assert rest == "}" + rest[1..] && [m] + [] == [m];
    } else {
      DecodedMembersAreCanonical(p, rest[1..], depth);
      var (members, rest') := DecodeMembers(p, rest[1..], depth).value;
      MemberTextsCons(p, depth, m, members, "}" + rest');
      assert rest == "," + rest[1..];
    }
  }

  lemma NoMembers(p: Profile, depth: nat)
    ensures CanonicalMembers(p, [], depth) == Some([])
  {}

  lemma MemberTextsCons(p: Profile, depth: nat, m: Field<Json>, members: seq<Field<Json>>, close: string)
    requires AllowedText(p, m.key) && Canonical(p, m.value, depth).Some? && CanonicalMembers(p, members, depth).Some?
    ensures CanonicalMembers(p, [m] + members, depth).Some?
    ensures NormMembers([m] + members) == [Field(m.key, Norm(m.value))] + NormMembers(members)
    ensures Join(MemberTexts(CanonicalMembers(p, [m] + members, depth).value), ",") + close
      == Quote(m.key) + ":" + Canonical(p, m.value, depth).value
       + (if members == [] then close
          else "," + (Join(MemberTexts(CanonicalMembers(p, members, depth).value), ",") + close))
  {
    hide Canonical;
    hide Norm;
    hide Quote;
    var ms := [m] + members;
    assert ms[1..] == members;
    var field, fields := Field(m.key, Canonical(p, m.value, depth).value), CanonicalMembers(p, members, depth).value;
    assert CanonicalMembers(p, ms, depth) == Some([field] + fields);
    hide CanonicalMembers;
    var texts := MemberTexts([field] + fields);
    assert texts == [Quote(field.key) + ":" + field.value] + MemberTexts(fields);
    assert texts[1..] == MemberTexts(fields);
    if members != [] {
      JoinCons(texts, close);
    }
  }

  // ---- Equal texts, equal data -------------------------------------------------------

  lemma {:induction false} SameDataMeansSameNorm(v: Json, w: Json)
    requires DistinctKeys(v) && DistinctKeys(w)
    ensures SameData(v, w) <==> Norm(v) == Norm(w)
    decreases v
  {
    match v {
      case JArray(items) =>
        if w.JArray? && |w.items| == |items| {
          forall i | 0 <= i < |items| ensures SameData(items[i], w.items[i]) <==> Norm(items[i]) == Norm(w.items[i]) {
            SameDataMeansSameNorm(items[i], w.items[i]);
          }
          assert NormItems(items) == NormItems(w.items) <==>
            forall i | 0 <= i < |items| :: NormItems(items)[i] == NormItems(w.items)[i];
        }
      case JObject(_, members) =>
        if w.JObject? && |w.members| == |members| {
          SameMembersMeansSameNorm(v, w);
        } else if w.JObject? {
          assert |SortFields(NormMembers(members))| != |SortFields(NormMembers(w.members))|;
        }
      case _ =>
    }
  }

  lemma {:induction false} SameMembersMeansSameNorm(v: Json, w: Json)
    requires v.JObject? && w.JObject? && |v.members| == |w.members|
    requires DistinctKeys(v) && DistinctKeys(w)
    ensures SameData(v, w) <==> Norm(v) == Norm(w)
    decreases v, 0
  {
    forall m, n | m in v.members && n in w.members
      ensures SameData(m.value, n.value) <==> Norm(m.value) == Norm(n.value)
    {
      SameDataMeansSameNorm(m.value, n.value);
    }
    if SameData(v, w) {
      MatchedMembersSortAlike(v.members, w.members);
    }
    if Norm(v) == Norm(w) {
      AlikeSortedMembersMatch(v.members, w.members);
    }
  }

  ghost predicate Matched(m: Field<Json>, ns: seq<Field<Json>>) {
    exists n | n in ns :: n.key == m.key && Norm(n.value) == Norm(m.value)
  }

  lemma NormMemberIn(ms: seq<Field<Json>>, m: Field<Json>)
    requires m in ms
    ensures Field(m.key, Norm(m.value)) in SortFields(NormMembers(ms))
  {
    var i :| 0 <= i < |ms| && ms[i] == m;
    assert NormMembers(ms)[i] in multiset(NormMembers(ms));
  }

  lemma NormMemberFrom(ms: seq<Field<Json>>, f: Field<Json>) returns (m: Field<Json>)
    requires f in SortFields(NormMembers(ms))
    ensures m in ms && f == Field(m.key, Norm(m.value))
  {
    assert f in multiset(SortFields(NormMembers(ms)));
    var i :| 0 <= i < |ms| && NormMembers(ms)[i] == f;
    m := ms[i];
  }

  lemma MatchedMembersSortAlike(ms: seq<Field<Json>>, ns: seq<Field<Json>>)
    requires |ms| == |ns| && forall m | m in ms :: Matched(m, ns)
    requires forall i, j | 0 <= i < j < |ms| :: ms[i].key != ms[j].key
    requires forall i, j | 0 <= i < j < |ns| :: ns[i].key != ns[j].key
    ensures SortFields(NormMembers(ms)) == SortFields(NormMembers(ns))
  {
    var a, b := SortFields(NormMembers(ms)), SortFields(NormMembers(ns));
    SortAscends(NormMembers(ms));
    SortAscends(NormMembers(ns));
    forall f | f in a ensures f in b {
      var m := NormMemberFrom(ms, f);
      var n :| n in ns && n.key == m.key && Norm(n.value) == Norm(m.value);
      NormMemberIn(ns, n);
    }
    AscendingUnique(a, b);
  }

  lemma AlikeSortedMembersMatch(ms: seq<Field<Json>>, ns: seq<Field<Json>>)
    requires SortFields(NormMembers(ms)) == SortFields(NormMembers(ns))
    ensures forall m | m in ms :: Matched(m, ns)
  {
    forall m | m in ms ensures Matched(m, ns) {
      NormMemberIn(ms, m);
      var n := NormMemberFrom(ns, Field(m.key, Norm(m.value)));
    }
  }

  /** Two accepted values have one canonical text exactly when they are the same data. */
  lemma CanonicalTextIdentifiesData(p: Profile, v: Json, w: Json, depth: nat)
    requires DistinctKeys(v) && DistinctKeys(w)
    requires Canonical(p, v, depth).Some? && Canonical(p, w, depth).Some?
    ensures Canonical(p, v, depth) == Canonical(p, w, depth) <==> SameData(v, w)
  {
    SameDataMeansSameNorm(v, w);
    NormHasSameText(p, v, depth);
    NormHasSameText(p, w, depth);
  }

  lemma NormHasSameText(p: Profile, v: Json, depth: nat)
    requires DistinctKeys(v) && Canonical(p, v, depth).Some?
    ensures DecodeValue(p, Canonical(p, v, depth).value, depth) == Some((Norm(v), ""))
    ensures Canonical(p, Norm(v), depth) == Canonical(p, v, depth)
  {
    hide Canonical, DecodeValue, Norm, DistinctKeys;
    var text := Canonical(p, v, depth).value;
    CanonicalReadsBack(p, v, depth, text);
    assert text + "" == text;
    DecodedIsCanonical(p, text, depth);
    assert Canonical(p, Norm(v), depth).value + "" == Canonical(p, Norm(v), depth).value;
  }

  /** The one way a text can follow a value and be misread: digits after a number. */
  lemma SuffixExactlyWhenDelimited(p: Profile, v: Json, depth: nat, rest: string)
    requires DistinctKeys(v) && Canonical(p, v, depth).Some?
    ensures DecodeValue(p, Canonical(p, v, depth).value + rest, depth) == Some((Norm(v), rest))
      <==> !(Norm(v).JInt? && StartsWithDigit(rest))
  {
    var text := Canonical(p, v, depth).value;
    var s := text + rest;
    CanonicalReadsBack(p, v, depth, text);
    if Norm(v).JInt? && StartsWithDigit(rest) {
      assert text[0] in text && s[0] == text[0];
      DigitRunIsLong(text, rest);
    }
  }

  lemma {:induction false} DigitRunIsLong(text: string, rest: string)
    requires AllDigits(text) && StartsWithDigit(rest)
    ensures DigitRun(text + rest) > |text|
  {
    if text == "" {
      assert text + rest == rest;
    } else {
      DigitRunIsLong(text[1..], rest);
      assert (text + rest)[1..] == text[1..] + rest;
      assert text[0] in text;
    }
  }

  /** A text is accepted whole exactly when it is some value's canonical text. */
  lemma AcceptedExactlyWhenCanonical(p: Profile, s: string)
    ensures (exists v :: DistinctKeys(v) && Canonical(p, v, 0) == Some(s))
      <==> DecodeValue(p, s, 0).Some? && DecodeValue(p, s, 0).value.1 == ""
  {
    forall v | DistinctKeys(v) && Canonical(p, v, 0) == Some(s)
      ensures DecodeValue(p, s, 0) == Some((Norm(v), ""))
    {
      NormHasSameText(p, v, 0);
    }
    if DecodeValue(p, s, 0).Some? && DecodeValue(p, s, 0).value.1 == "" {
      DecodedIsCanonical(p, s, 0);
      var v := DecodeValue(p, s, 0).value.0;
      var text := Canonical(p, v, 0).value;
      assert s == text + "" == text;
      assert DistinctKeys(v) && Canonical(p, v, 0) == Some(s);
    }
  }
}
