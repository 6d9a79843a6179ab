/** What the media calls put on the wire, in literal texts, and which calls and replies let them. */
module MediaWire {
  import opened Wrappers
  import opened Text
  import opened CanonicalJson
  import opened JsonRecord
  import opened FlatJson
  import opened ClientTraces
  import opened MediaExchange
  import Utf16

  // ---- Accepted calls -----------------------------------------------------------------------

  /** A size text: two numerals of three or four digits around an x, each between 128 and 2048. */
  ghost predicate Spells(size: string, width: nat, height: nat) {
    exists w, h | AllDigits(w) && AllDigits(h) ::
      && size == w + "x" + h && 3 <= |w| <= 4 && 3 <= |h| <= 4
      && width == NumeralValue(w) && height == NumeralValue(h)
      && 128 <= width <= 2048 && 128 <= height <= 2048
  }

  lemma DimensionsExactly(size: string, width: nat, height: nat)
    ensures Dimensions(size) == Some((width, height)) <==> Spells(size, width, height)
  {
    hide NumeralValue;
    if Dimensions(size) == Some((width, height)) {
      var (w, h) := Sides(size).value;
      assert size == w + "x" + h;
    }
    if Spells(size, width, height) {
      var w, h :| AllDigits(w) && AllDigits(h) && size == w + "x" + h && 3 <= |w| <= 4 && 3 <= |h| <= 4
        && width == NumeralValue(w) && height == NumeralValue(h);
      SidesOf(w, h);
    }
  }

  lemma SidesOf(w: string, h: string)
    requires AllDigits(w) && AllDigits(h) && 3 <= |w| <= 4 && 3 <= |h| <= 4
    ensures Sides(w + "x" + h) == Some((w, h))
  {
    var size := w + "x" + h;
    if |w| == 4 { assert size[3] == w[3] && w[3] in w; }
    assert size[|w|] == 'x' && size[..|w|] == w && size[|w| + 1..] == h;
  }

  /** An image call is accepted exactly when model and prompt fit and the size spells the dimensions it is told as. */
  lemma ImageShapeExactly(model: string, prompt: string, size: Option<string>, strict: bool, shape: Shape)
    ensures ShapeOf(Image(model, prompt, size, strict)) == Some(shape) <==>
      && strict && 1 <= Utf16.Length(model) <= 256 && prompt != "" && Utf16.Length(prompt) <= 10000
      && exists width: nat, height: nat ::
           && Spells(if size.Some? then size.value else "1024x1024", width, height)
           && shape == ImageShape(model, Decimal(width) + "x" + Decimal(height))
  {
    var asked := if size.Some? then size.value else "1024x1024";
    ImageShapeByDimensions(model, prompt, size, strict, shape);
    hide *;
    DimensionsAreSpelled(model, asked, shape);
  }

  lemma ImageShapeByDimensions(model: string, prompt: string, size: Option<string>, strict: bool, shape: Shape)
    ensures ShapeOf(Image(model, prompt, size, strict)) == Some(shape) <==>
      && strict && 1 <= Utf16.Length(model) <= 256 && prompt != "" && Utf16.Length(prompt) <= 10000
      && ToldAs(model, Dimensions(if size.Some? then size.value else "1024x1024"), shape)
  {
    hide Dimensions, Decimal, Utf16.Length;
  }

  predicate ToldAs(model: string, dimensions: Option<(nat, nat)>, shape: Shape) {
    && dimensions.Some?
    && shape == ImageShape(model, Decimal(dimensions.value.0) + "x" + Decimal(dimensions.value.1))
  }

  lemma DimensionsAreSpelled(model: string, asked: string, shape: Shape)
    ensures ToldAs(model, Dimensions(asked), shape) <==>
      exists width: nat, height: nat ::
        Spells(asked, width, height) && shape == ImageShape(model, Decimal(width) + "x" + Decimal(height))
  {
    hide Spells, Dimensions, Decimal;
    if Dimensions(asked).Some? { DimensionsExactly(asked, Dimensions(asked).value.0, Dimensions(asked).value.1); }
    forall width: nat, height: nat | Spells(asked, width, height) ensures Dimensions(asked) == Some((width, height)) {
      DimensionsExactly(asked, width, height);
    }
  }

  /** A speech call is accepted exactly when its texts fit; it is told as its length and voice. */
  lemma SpeechShapeExactly(model: string, input: string, voice: Option<string>, strict: bool, shape: Shape)
    ensures ShapeOf(Speech(model, input, voice, strict)) == Some(shape) <==>
      && strict && 1 <= Utf16.Length(model) <= 256 && input != "" && Utf16.Length(input) <= 20000
      && (voice.Some? ==> voice.value != "" && Utf16.Length(voice.value) <= 64)
      && shape == SpeechShape(model, Utf16.Length(input), voice)
  {
    hide Utf16.Length;
  }

  // ---- The replies that entitle to the content request ---------------------------------------------

  predicate AbsentOr(issued: Json, key: string, want: Json) { Get(issued, key) in [None, Some(want)] }

  /**
   * A 2xx answer with a ticket, whose every echo is absent or what was asked for; a voice not asked for must
   * be absent.
   */
  predicate Issues(reply: Reply, shape: Shape, ticket: string) {
    && reply.Response? && 200 <= reply.status < 300 && reply.json.Some? && ticket != ""
    && var v := reply.json.value;
    && Get(v, "ticket") == Some(JString(ticket)) && AbsentOr(v, "model", JString(shape.model))
    && match shape
       case ImageShape(_, size) =>
         && AbsentOr(v, "operation", JString("image")) && AbsentOr(v, "size", JString(size))
         && AbsentOr(v, "response_format", JString("b64_json"))
       case SpeechShape(_, chars, voice) =>
         && AbsentOr(v, "operation", JString("speech")) && AbsentOr(v, "input_chars", JInt(chars))
         && AbsentOr(v, "response_format", JString("mp3"))
         && (if voice.Some? then AbsentOr(v, "voice", JString(voice.value)) else Get(v, "voice").None?)
  }

  lemma EntitlesExactly(reply: Reply, shape: Shape, ticket: string)
    ensures Redeemable(reply, shape) == Some(ticket) <==> Issues(reply, shape, ticket)
  {
    if reply.Response? && reply.json.Some? { EchoesExactly(reply.json.value, shape); }
    hide EchoesMatch, AbsentOr;
  }

  lemma EchoesExactly(v: Json, shape: Shape)
    ensures EchoesMatch(v, Expected(shape)) <==>
      && AbsentOr(v, "model", JString(shape.model))
      && match shape
         case ImageShape(_, size) =>
           && AbsentOr(v, "operation", JString("image")) && AbsentOr(v, "size", JString(size))
           && AbsentOr(v, "response_format", JString("b64_json"))
         case SpeechShape(_, chars, voice) =>
           && AbsentOr(v, "operation", JString("speech")) && AbsentOr(v, "input_chars", JInt(chars))
           && AbsentOr(v, "response_format", JString("mp3"))
           && (if voice.Some? then AbsentOr(v, "voice", JString(voice.value)) else Get(v, "voice").None?)
  {
    var e := Expected(shape);
    EachEcho(v, e);
    OneEcho(v, "model", JString(shape.model));
    match shape {
      case ImageShape(_, size) =>
        OneEcho(v, "operation", JString("image"));
        OneEcho(v, "size", JString(size));
        OneEcho(v, "response_format", JString("b64_json"));
      case SpeechShape(_, chars, voice) =>
        OneEcho(v, "operation", JString("speech"));
        OneEcho(v, "input_chars", JInt(chars));
        OneEcho(v, "response_format", JString("mp3"));
        if voice.Some? { OneEcho(v, "voice", JString(voice.value)); }
    }
    NoEcho(v, "voice");
    hide Get, EchoOk, AbsentOr, EchoesMatch;
  }

  lemma EachEcho(v: Json, e: seq<Field<Option<Json>>>)
    requires 4 <= |e| <= 5
    ensures EchoesMatch(v, e) <==> EchoOk(v, e[0]) && EchoOk(v, e[1]) && EchoOk(v, e[2]) && EchoOk(v, e[3])
                                   && (|e| == 5 ==> EchoOk(v, e[4]))
  {
    hide EchoOk;
  }

  lemma OneEcho(v: Json, key: string, want: Json)
    ensures EchoOk(v, Field(key, Some(want))) <==> AbsentOr(v, key, want)
  {
    hide Get;
  }

  lemma NoEcho(v: Json, key: string)
    ensures EchoOk(v, Field(key, None)) <==> Get(v, key).None?
  {
    hide Get;
  }

  // ---- The two requests ----------------------------------------------------------------------------------

  function Object(parts: seq<string>): string { "{" + Join(parts, ",") + "}" }

  /** A text that needs no escaping, in quotes. */
  function Bare(text: string): string { "\"" + text + "\"" }

  function Member(key: string, value: string): string { Bare(key) + ":" + value }

  function VoicePart(voice: Option<string>): seq<string> {
    if voice.Some? then [Member("voice", Quote(voice.value))] else []
  }

  /** The body the control origin is sent. */
  function MintText(shape: Shape): string {
    match shape
    case ImageShape(model, size) =>
      Object([Member("operation", Bare("image")), Member("model", Quote(model)), Member("size", Quote(size)),
              Member("response_format", Bare("b64_json"))])
    case SpeechShape(model, chars, voice) =>
      Object([Member("operation", Bare("speech")), Member("model", Quote(model)), Member("input_chars", Decimal(chars)),
              Member("response_format", Bare("mp3"))] + VoicePart(voice))
  }

  /** The body the inference origin is sent. */
  function ContentBody(shape: Shape, text: string): string {
    match shape
    case ImageShape(model, size) =>
      Object([Member("model", Quote(model)), Member("prompt", Quote(text)), Member("size", Quote(size)),
              Member("response_format", Bare("b64_json"))])
    case SpeechShape(model, _, voice) =>
      Object([Member("model", Quote(model)), Member("input", Quote(text)), Member("response_format", Bare("mp3"))]
             + VoicePart(voice))
  }

  /**
   * A stopped or refused call sends nothing; any other sends the ticket request with the key to the
   * control origin, and exactly after an answer that issues a ticket, the content request on that
   * ticket to the inference origin.
   */
  lemma SendsExactly(w: MediaWorld, c: Config, call: Call)
    ensures var h := History(w, c, call, []);
      && (h == [] <==> w.stopped || ShapeOf(call).None?)
      && (h != [] ==>
            && var shape := ShapeOf(call).value;
            && h[0] == MediaRequest(c.control, "/v1/inference/tickets", true, None, MintText(shape))
            && (|h| == 2 <==> exists ticket :: Issues(w.server(h[..1]), shape, ticket))
            && forall ticket | Issues(w.server(h[..1]), shape, ticket) ::
                 h == [h[0], MediaRequest(c.inference,
                               if shape.ImageShape? then "/v1/images/generations" else "/v1/audio/speech",
                               false, Some(ticket), ContentBody(shape, ContentText(call)))])
  {
    hide ShapeOf, Issues, Redeemable, MintText, ContentBody, Stringify, MintPayload, ContentPayload;
    if ShapeOf(call).Some? && !w.stopped {
      var shape := ShapeOf(call).value;
      var h := History(w, c, call, []);
      var mint := [Mint(c, shape)];
      assert h[..1] == mint == [] + mint;
      IssuesExactly(w.server(mint), shape);
      MintBodyExactly(shape);
      ContentBodyExactly(shape, ContentText(call));
    }
  }

  lemma IssuesExactly(reply: Reply, shape: Shape)
    ensures Redeemable(reply, shape).None? <==> forall ticket :: !Issues(reply, shape, ticket)
    ensures forall ticket | Issues(reply, shape, ticket) :: Redeemable(reply, shape) == Some(ticket)
  {
    hide Redeemable, Issues;
    forall ticket ensures Redeemable(reply, shape) == Some(ticket) <==> Issues(reply, shape, ticket) {
      EntitlesExactly(reply, shape, ticket);
    }
    if Redeemable(reply, shape).Some? { assert Issues(reply, shape, Redeemable(reply, shape).value); }
  }

  lemma MintBodyExactly(shape: Shape)
    ensures Stringify(MintPayload(shape)) == MintText(shape)
  {
    hide Quote, Decimal, Join, Stringify, Part, Member, Bare, Unescaped;
    PlainNames();
    var fields := MintPayload(shape);
    StringifyJoins(fields);
    match shape {
      case ImageShape(model, size) =>
        MemberText("operation", "image");
        MemberQuotes("model", model);
        MemberQuotes("size", size);
        MemberText("response_format", "b64_json");
        FourParts(fields[0], fields[1], fields[2], fields[3]);
      case SpeechShape(model, chars, voice) =>
        MemberText("operation", "speech");
        MemberQuotes("model", model);
        MemberCounts("input_chars", chars);
        MemberText("response_format", "mp3");
        FourParts(fields[0], fields[1], fields[2], fields[3]);
        VoiceParts(voice);
        PartsConcat([fields[0], fields[1], fields[2], fields[3]], VoiceField(voice));
    }
  }

  lemma ContentBodyExactly(shape: Shape, text: string)
    ensures Stringify(ContentPayload(shape, text)) == ContentBody(shape, text)
  {
    hide Quote, Decimal, Join, Stringify, Part, Member, Bare, Unescaped;
    PlainNames();
    var fields := ContentPayload(shape, text);
    StringifyJoins(fields);
    MemberQuotes("model", shape.model);
    match shape {
      case ImageShape(_, size) =>
        MemberQuotes("prompt", text);
        MemberQuotes("size", size);
        MemberText("response_format", "b64_json");
        FourParts(fields[0], fields[1], fields[2], fields[3]);
      case SpeechShape(_, _, voice) =>
        MemberQuotes("input", text);
        MemberText("response_format", "mp3");
        ThreeParts(fields[0], fields[1], fields[2]);
        VoiceParts(voice);
        PartsConcat([fields[0], fields[1], fields[2]], VoiceField(voice));
    }
  }

  lemma PlainNames()
    ensures Unescaped("operation") && Unescaped("image") && Unescaped("speech")
    ensures Unescaped("model") && Unescaped("size")
    ensures Unescaped("prompt") && Unescaped("input") && Unescaped("voice") && Unescaped("input_chars")
    ensures Unescaped("response_format") && Unescaped("b64_json") && Unescaped("mp3")
  {}

  lemma ThreeParts(a: Field<Json>, b: Field<Json>, c: Field<Json>)
    requires Flat(a.value) && Flat(b.value) && Flat(c.value)
    ensures AllFlat([a, b, c]) && Parts([a, b, c]) == [Part(a), Part(b), Part(c)]
  {}

  lemma FourParts(a: Field<Json>, b: Field<Json>, c: Field<Json>, d: Field<Json>)
    requires Flat(a.value) && Flat(b.value) && Flat(c.value) && Flat(d.value)
    ensures AllFlat([a, b, c, d]) && Parts([a, b, c, d]) == [Part(a), Part(b), Part(c), Part(d)]
  {}

  lemma PartsConcat(fields: seq<Field<Json>>, more: seq<Field<Json>>)
    requires AllFlat(fields) && AllFlat(more)
    ensures AllFlat(fields + more) && Parts(fields + more) == Parts(fields) + Parts(more)
  {}

  lemma VoiceParts(voice: Option<string>)
    ensures Parts(VoiceField(voice)) == VoicePart(voice)
  {
    if voice.Some? {
      PlainNames();
      MemberQuotes("voice", voice.value);
    }
  }

  function Parts(fields: seq<Field<Json>>): (parts: seq<string>)
    requires AllFlat(fields)
    ensures |parts| == |fields| && forall i | 0 <= i < |parts| :: parts[i] == Part(fields[i])
  {
    seq(|fields|, i requires 0 <= i < |fields| => Part(fields[i]))
  }

  /** An object's text is its parts between commas. */
  lemma StringifyJoins(fields: seq<Field<Json>>)
    requires AllFlat(fields)
    ensures Stringify(fields) == Object(Parts(fields))
  {
    hide Part;
    if fields != [] {
      RestJoins(fields);
      Regroup("{", Part(fields[0]), Rest(fields[1..]), Join(Parts(fields), ","));
    }
  }

  lemma Regroup(a: string, b: string, c: string, d: string)
    requires b + c == d + "}"
    ensures a + b + c == a + d + "}"
  {
    assert a + b + c == a + (b + c) && a + d + "}" == a + (d + "}");
  }

  lemma {:induction false} RestJoins(fields: seq<Field<Json>>)
    requires AllFlat(fields) && fields != []
    ensures Part(fields[0]) + Rest(fields[1..]) == Join(Parts(fields), ",") + "}"
  {
    hide Part;
    var parts := Parts(fields);
    if |fields| > 1 {
      var tail := fields[1..];
      RestJoins(tail);
      assert parts[1..] == Parts(tail);
      Chain(parts[0], Part(tail[0]) + Rest(tail[1..]), Join(Parts(tail), ","));
      Comma(Part(tail[0]), Rest(tail[1..]));
    }
  }

  lemma Chain(a: string, b: string, c: string)
    requires b == c + "}"
    ensures a + ("," + b) == a + "," + c + "}"
  {}

  lemma Comma(a: string, b: string)
    ensures "," + a + b == "," + (a + b)
  {}

  predicate Unescaped(s: string) { forall c | c in s :: 'a' <= c <= 'z' || '0' <= c <= '9' || c == '_' }

  lemma {:induction false} EscapesNothing(s: string)
    requires Unescaped(s)
    ensures EscapeText(s) == s
  {
    if s != "" {
      assert s[0] in s && forall c | c in s[1..] :: c in s;
      EscapesNothing(s[1..]);
      assert EscapeChar(s[0]) == [s[0]];
      assert s == [s[0]] + s[1..];
    }
  }

  lemma MemberQuotes(key: string, text: string)
    requires Unescaped(key)
    ensures Part(Field(key, JString(text))) == Member(key, Quote(text))
  {
    EscapesNothing(key);
  }

  lemma MemberText(key: string, text: string)
    requires Unescaped(key) && Unescaped(text)
    ensures Part(Field(key, JString(text))) == Member(key, Bare(text))
  {
    EscapesNothing(key);
    EscapesNothing(text);
  }

  lemma MemberCounts(key: string, n: nat)
    requires Unescaped(key)
    ensures Part(Field(key, JInt(n))) == Member(key, Decimal(n))
  {
    EscapesNothing(key);
  }
}
