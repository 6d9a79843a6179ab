/** JSON.stringify on an object of texts, numbers and nulls, keys in insertion order. */
module FlatJson {
  import opened Text
  import opened CanonicalJson
  import opened CanonicalRoundTrip

  predicate Flat(v: Json) { v.JNull? || v.JString? || (v.JInt? && v.n >= 0) }

  predicate AllFlat(fields: seq<Field<Json>>) { forall i | 0 <= i < |fields| :: Flat(fields[i].value) }

  function ValueText(v: Json): (s: string)
    requires Flat(v)
    ensures s != ""
  {
    match v
    case JNull => "null"
    case JString(text) => Quote(text)
    case JInt(n) => Decimal(n)
  }

  function Part(f: Field<Json>): string
    requires Flat(f.value)
  {
    Quote(f.key) + ":" + ValueText(f.value)
  }

  /** What follows the first field: more fields, then the closing brace. */
  function Rest(fields: seq<Field<Json>>): (s: string)
    requires AllFlat(fields)
    ensures s != "" && (s[0] == ',' || s[0] == '}')
  {
    if fields == [] then "}" else "," + Part(fields[0]) + Rest(fields[1..])
  }

  function Stringify(fields: seq<Field<Json>>): string
    requires AllFlat(fields)
  {
    if fields == [] then "{}" else "{" + Part(fields[0]) + Rest(fields[1..])
  }

  // ---- Reading a text back from the left -----------------------------------------------

  lemma {:induction false} QuotedSplit(s: string, t: string, rest: string, rest': string)
    requires EscapeText(s) + "\"" + rest == EscapeText(t) + "\"" + rest'
    ensures s == t && rest == rest'
  {
    hide EscapeChar, Candidate;
    var x, y := EscapeText(s) + "\"" + rest, EscapeText(t) + "\"" + rest';
    if s == "" || t == "" {
      assert x[0] == '"' && y[0] == '"';
      assert s == "" && t == "";
      assert rest == x[1..] && rest' == y[1..];
    } else {
      var u, v := EscapeText(s[1..]) + "\"" + rest, EscapeText(t[1..]) + "\"" + rest';
      assert x == EscapeChar(s[0]) + u && y == EscapeChar(t[0]) + v;
      CandidateOfEscape(s[0], u);
      CandidateOfEscape(t[0], v);
      assert u == x[|EscapeChar(s[0])|..] && v == y[|EscapeChar(t[0])|..];
      QuotedSplit(s[1..], t[1..], rest, rest');
      assert s == [s[0]] + s[1..] && t == [t[0]] + t[1..];
    }
  }

  /** A quoted string is read back from the front of any text. */
  lemma QuoteSplit(s: string, t: string, rest: string, rest': string)
    requires Quote(s) + rest == Quote(t) + rest'
    ensures s == t && rest == rest'
  {
    var x, y := Quote(s) + rest, Quote(t) + rest';
    assert x[1..] == EscapeText(s) + "\"" + rest && y[1..] == EscapeText(t) + "\"" + rest';
    QuotedSplit(s, t, rest, rest');
  }

  lemma DecimalSplit(m: nat, n: nat, rest: string, rest': string)
    requires Decimal(m) + rest == Decimal(n) + rest' && !StartsWithDigit(rest) && !StartsWithDigit(rest')
    ensures m == n && rest == rest'
  {
    DigitRunStops(Decimal(m), rest);
    DigitRunStops(Decimal(n), rest');
    DecimalValue(m);
    DecimalValue(n);
    hide *;
    var x, y := Decimal(m) + rest, Decimal(n) + rest';
    assert x[..|Decimal(m)|] == Decimal(m) && y[..|Decimal(n)|] == Decimal(n);
    assert x[|Decimal(m)|..] == rest && y[|Decimal(n)|..] == rest';
  }

  /** The first character tells the three kinds of value apart. */
  lemma FirstCharacter(v: Json)
    requires Flat(v)
    ensures v.JString? <==> ValueText(v)[0] == '"'
    ensures v.JNull? <==> ValueText(v)[0] == 'n'
  {
    if v.JInt? { assert Decimal(v.n)[0] in Decimal(v.n); }
  }

  lemma ValueSplit(v: Json, w: Json, rest: string, rest': string)
    requires Flat(v) && Flat(w) && ValueText(v) + rest == ValueText(w) + rest'
    requires !StartsWithDigit(rest) && !StartsWithDigit(rest')
    ensures v == w && rest == rest'
  {
    hide Quote, Decimal;
    FirstCharacter(v);
    FirstCharacter(w);
    assert (ValueText(v) + rest)[0] == (ValueText(w) + rest')[0];
    match v
    case JString(text) => QuoteSplit(text, w.text, rest, rest');
    case JInt(n) => DecimalSplit(n, w.n, rest, rest');
    case JNull =>
      assert rest == (ValueText(v) + rest)[4..] && rest' == (ValueText(w) + rest')[4..];
  }

  lemma PartSplit(f: Field<Json>, g: Field<Json>, rest: string, rest': string)
    requires Flat(f.value) && Flat(g.value) && Part(f) + rest == Part(g) + rest'
    requires !StartsWithDigit(rest) && !StartsWithDigit(rest')
    ensures f == g && rest == rest'
  {
    hide Quote, ValueText, StartsWithDigit;
    var x, y := ValueText(f.value) + rest, ValueText(g.value) + rest';
    Regroup(Quote(f.key), ValueText(f.value), rest);
    Regroup(Quote(g.key), ValueText(g.value), rest');
    QuoteSplit(f.key, g.key, ":" + x, ":" + y);
    assert x == (":" + x)[1..] && y == (":" + y)[1..];
    ValueSplit(f.value, g.value, rest, rest');
  }

  lemma Regroup(q: string, v: string, rest: string)
    ensures q + ":" + v + rest == q + (":" + (v + rest))
  {}

  lemma {:induction false} RestInjective(fields: seq<Field<Json>>, others: seq<Field<Json>>)
    requires AllFlat(fields) && AllFlat(others) && Rest(fields) == Rest(others)
    ensures fields == others
    decreases |fields|
  {
    hide Part;
    if fields != [] && others != [] {
      var x, y := Rest(fields[1..]), Rest(others[1..]);
      assert Rest(fields)[1..] == Part(fields[0]) + x && Rest(others)[1..] == Part(others[0]) + y;
      PartSplit(fields[0], others[0], x, y);
      RestInjective(fields[1..], others[1..]);
      assert fields == [fields[0]] + fields[1..] && others == [others[0]] + others[1..];
    } else {
      assert Rest(fields)[0] == Rest(others)[0];
    }
  }

  /** Two objects have one text exactly when they have the same fields in the same order. */
  lemma StringifyInjective(fields: seq<Field<Json>>, others: seq<Field<Json>>)
    requires AllFlat(fields) && AllFlat(others)
    ensures Stringify(fields) == Stringify(others) <==> fields == others
  {
    hide Part;
    if Stringify(fields) == Stringify(others) {
      FieldsFollowBrace(fields);
      FieldsFollowBrace(others);
      if fields != [] && others != [] {
        var x, y := Rest(fields[1..]), Rest(others[1..]);
        assert Stringify(fields)[1..] == Part(fields[0]) + x && Stringify(others)[1..] == Part(others[0]) + y;
        PartSplit(fields[0], others[0], x, y);
        RestInjective(fields[1..], others[1..]);
        assert fields == [fields[0]] + fields[1..] && others == [others[0]] + others[1..];
      }
    }
  }

  lemma FieldsFollowBrace(fields: seq<Field<Json>>)
    requires AllFlat(fields)
    ensures |Stringify(fields)| >= 2 && (Stringify(fields)[1] == '"' <==> fields != [])
  {}
}
