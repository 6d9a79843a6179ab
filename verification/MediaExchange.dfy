/** The two-origin media exchange: what each origin learns, and when content is sent. */
module MediaExchange {
  import opened Wrappers
  import opened Text
  import opened CanonicalJson
  import opened JsonRecord
  import opened FlatJson
  import opened ClientTraces
  import Utf16

  const MIN_DIMENSION := 128
  const MAX_DIMENSION := 2048
  const DEFAULT_SIZE := "1024x1024"
  const MAX_PROMPT := 10000
  const MAX_INPUT := 20000
  const MAX_VOICE := 64
  const MAX_MODEL := 256
  const IMAGE_FORMAT := "b64_json"
  const SPEECH_FORMAT := "mp3"

  // ---- Image sizes -----------------------------------------------------------------------

  /** The two sides of a text that matches the size pattern: three or four digits each. */
  function Sides(size: string): Option<(string, string)> {
    var k := if |size| > 3 && size[3] == 'x' then 3 else 4;
    if k < |size| && size[k] == 'x' && 3 <= |size| - k - 1 <= 4 && AllDigits(size[..k]) && AllDigits(size[k + 1..])
    then Some((size[..k], size[k + 1..])) else None
  }

  function SizeText(width: nat, height: nat): string { Decimal(width) + "x" + Decimal(height) }

  /** The dimensions a size stands for, when they are in range. */
  function Dimensions(size: string): Option<(nat, nat)> {
    match Sides(size)
    case None => None
    case Some((w, h)) =>
      if AllDigits(w) && AllDigits(h)
         && MIN_DIMENSION <= NumeralValue(w) <= MAX_DIMENSION && MIN_DIMENSION <= NumeralValue(h) <= MAX_DIMENSION
      then Some((NumeralValue(w), NumeralValue(h))) else None
  }

  function CanonicalImageSize(size: string): Option<string> {
    match Dimensions(size)
    case None => None
    case Some((width, height)) => Some(SizeText(width, height))
  }

  lemma DecimalLength(n: nat)
    requires MIN_DIMENSION <= n <= MAX_DIMENSION
    ensures 3 <= |Decimal(n)| <= 4
  {
    assert 1 <= n / 100 <= 20 && n / 10 / 10 == n / 100 && n / 100 / 10 <= 2;
    assert |Decimal(n / 100)| <= 2;
    assert |Decimal(n / 10)| == |Decimal(n / 10 / 10)| + 1 && |Decimal(n)| == |Decimal(n / 10)| + 1;
  }

  /** A canonical text stands for its dimensions. */
  lemma CanonicalTextHasDimensions(width: nat, height: nat)
    requires MIN_DIMENSION <= width <= MAX_DIMENSION && MIN_DIMENSION <= height <= MAX_DIMENSION
    ensures Dimensions(SizeText(width, height)) == Some((width, height))
  {
    DecimalLength(width);
    DecimalLength(height);
    DecimalValue(width);
    DecimalValue(height);
    hide Decimal, NumeralValue;
    var w, h, size := Decimal(width), Decimal(height), SizeText(width, height);
    if |w| == 4 { assert size[3] == w[3] && w[3] in w; }
    assert size[|w|] == 'x' && size[..|w|] == w && size[|w| + 1..] == h;
  }

  /**
   * Both hosts see one text per pair of dimensions: canonical texts are fixed, and equal exactly for
   * equal dimensions.
   */
  lemma SizesAgreeExactly(s: string, t: string)
    requires CanonicalImageSize(s).Some? && CanonicalImageSize(t).Some?
    ensures CanonicalImageSize(CanonicalImageSize(s).value) == CanonicalImageSize(s)
    ensures CanonicalImageSize(s) == CanonicalImageSize(t) <==> Dimensions(s) == Dimensions(t)
  {
    CanonicalTextHasDimensions(Dimensions(s).value.0, Dimensions(s).value.1);
    CanonicalTextHasDimensions(Dimensions(t).value.0, Dimensions(t).value.1);
  }

  // ---- Calls and their content-free shape --------------------------------------------------

  /** strict: only supported keys, format, count and speed. */
  datatype Call =
    | Image(model: string, prompt: string, size: Option<string>, strict: bool)
    | Speech(model: string, input: string, voice: Option<string>, strict: bool)

  /** All the control origin is told. */
  datatype Shape =
    | ImageShape(model: string, size: string)
    | SpeechShape(model: string, inputChars: nat, voice: Option<string>)

  predicate ModelOk(model: string) { 1 <= Utf16.Length(model) <= MAX_MODEL }

  /** normalizeImage and normalizeSpeech; None where they throw. */
  function ShapeOf(call: Call): Option<Shape> {
    if !call.strict || !ModelOk(call.model) then None
    else match call
      case Image(model, prompt, size, _) =>
        var canonical := CanonicalImageSize(if size.Some? then size.value else DEFAULT_SIZE);
        if prompt == "" || Utf16.Length(prompt) > MAX_PROMPT || canonical.None? then None
        else Some(ImageShape(model, canonical.value))
      case Speech(model, input, voice, _) =>
        if input == "" || Utf16.Length(input) > MAX_INPUT
           || (voice.Some? && (voice.value == "" || Utf16.Length(voice.value) > MAX_VOICE)) then None
        else Some(SpeechShape(model, Utf16.Length(input), voice))
  }

  function ContentText(call: Call): string { if call.Image? then call.prompt else call.input }

  // ---- The ticket ----------------------------------------------------------------------------

  /** What the mint must echo: a value, or nothing at all where none was asked for. */
  function Expected(shape: Shape): seq<Field<Option<Json>>> {
    match shape
    case ImageShape(model, size) =>
      [Field("operation", Some(JString("image"))), Field("model", Some(JString(model))),
       Field("size", Some(JString(size))),
       Field("response_format", Some(JString(IMAGE_FORMAT)))]
    case SpeechShape(model, chars, voice) =>
      [Field("operation", Some(JString("speech"))), Field("model", Some(JString(model))),
       Field("input_chars", Some(JInt(chars))),
       Field("response_format", Some(JString(SPEECH_FORMAT))),
       Field("voice", if voice.Some? then Some(JString(voice.value)) else None)]
  }

  /** One echo in JavaScript: absent, or equal to what was asked for; null is present. */
  predicate EchoOk(issued: Json, want: Field<Option<Json>>) {
    Get(issued, want.key).None? || (want.value.Some? && Get(issued, want.key) == want.value)
  }

  /** Python's ==: a boolean equals the number 0 or 1. */
  predicate PythonEquals(got: Json, want: Json) {
    got == want
    || (want == JInt(1) && got == JBool(true))
    || (want == JInt(0) && (got == JBool(false) || got == JNegativeZero))
  }

  /** One echo in Python: null reads as None, and None counts as absent. */
  predicate PythonEchoOk(issued: Json, want: Field<Option<Json>>) {
    var got := Get(issued, want.key);
    got.None? || got == Some(JNull) || (want.value.Some? && PythonEquals(got.value, want.value.value))
  }

  predicate EchoesMatch(issued: Json, expected: seq<Field<Option<Json>>>) {
    forall k | 0 <= k < |expected| :: EchoOk(issued, expected[k])
  }

  /** The ticket a reply entitles us to spend content on. */
  function Redeemable(reply: Reply, shape: Shape): Option<string> {
    if !IsOk(reply) || reply.json.None? || !EchoesMatch(reply.json.value, Expected(shape)) then None
    else EchoText(reply.json.value, "ticket")
  }

  /** assertTicketBinding: field after field. */
  method AssertTicketBinding(issued: Json, expected: seq<Field<Option<Json>>>) returns (ticket: Option<string>)
    ensures ticket == if EchoesMatch(issued, expected) then EchoText(issued, "ticket") else None
  {
    ticket := EchoText(issued, "ticket");
    if ticket.None? { return; }
    for i := 0 to |expected|
      invariant forall k | 0 <= k < i :: EchoOk(issued, expected[k])
    {
      var got := Get(issued, expected[i].key);
      match expected[i].value
      case None => if got.Some? { return None; }
      case Some(want) => if got.Some? && got.value != want { return None; }
    }
  }

  /** The two clients judge an echo alike, except that Python lets null pass for absent and true for 1. */
  lemma ClientsDifferExactlyOnNull(issued: Json, want: Field<Option<Json>>)
    requires want.value != Some(JInt(0)) && want.value != Some(JNull)
    ensures EchoOk(issued, want) ==> PythonEchoOk(issued, want)
    ensures PythonEchoOk(issued, want) && !EchoOk(issued, want) <==>
      Get(issued, want.key) == Some(JNull)
      || (want.value == Some(JInt(1)) && Get(issued, want.key) == Some(JBool(true)))
  {}

  // ---- What is sent ------------------------------------------------------------------------------

  const TICKET_PATH := "/v1/inference/tickets"
  const IMAGE_PATH := "/v1/images/generations"
  const SPEECH_PATH := "/v1/audio/speech"

  datatype MediaRequest = MediaRequest(origin: string, path: string, apiKey: bool, ticket: Option<string>, body: string)

  function VoiceField(voice: Option<string>): (fields: seq<Field<Json>>)
    ensures AllFlat(fields)
  {
    if voice.Some? then [Field("voice", JString(voice.value))] else []
  }

  /** The payload of the ticket request: built from the shape alone. */
  function MintPayload(shape: Shape): (fields: seq<Field<Json>>)
    ensures AllFlat(fields)
  {
    match shape
    case ImageShape(model, size) =>
      [Field("operation", JString("image")), Field("model", JString(model)), Field("size", JString(size)),
       Field("response_format", JString(IMAGE_FORMAT))]
    case SpeechShape(model, chars, voice) =>
      [Field("operation", JString("speech")), Field("model", JString(model)), Field("input_chars", JInt(chars)),
       Field("response_format", JString(SPEECH_FORMAT))] + VoiceField(voice)
  }

  /** The payload of the content request. */
  function ContentPayload(shape: Shape, text: string): (fields: seq<Field<Json>>)
    ensures AllFlat(fields)
  {
    match shape
    case ImageShape(model, size) =>
      [Field("model", JString(model)), Field("prompt", JString(text)), Field("size", JString(size)),
       Field("response_format", JString(IMAGE_FORMAT))]
    case SpeechShape(model, _, voice) =>
      [Field("model", JString(model)), Field("input", JString(text)), Field("response_format", JString(SPEECH_FORMAT))]
      + VoiceField(voice)
  }

  function Mint(c: Config, shape: Shape): MediaRequest {
    MediaRequest(c.control, TICKET_PATH, true, None, Stringify(MintPayload(shape)))
  }

  function Post(c: Config, ticket: string, shape: Shape, text: string): MediaRequest {
    MediaRequest(c.inference, if shape.ImageShape? then IMAGE_PATH else SPEECH_PATH, false, Some(ticket),
                 Stringify(ContentPayload(shape, text)))
  }

  lemma SameVoice(a: Option<string>, b: Option<string>)
    requires VoiceField(a) == VoiceField(b)
    ensures a == b
  {
    if a.Some? && b.Some? { assert VoiceField(a)[0] == VoiceField(b)[0]; }
  }

  /** The ticket request says exactly the shape. */
  lemma MintSaysTheShape(a: Shape, b: Shape)
    ensures Stringify(MintPayload(a)) == Stringify(MintPayload(b)) <==> a == b
  {
    hide *;
    StringifyInjective(MintPayload(a), MintPayload(b));
    if MintPayload(a) == MintPayload(b) { SamePayloadSameShape(a, b); }
  }

  lemma SamePayloadSameShape(a: Shape, b: Shape)
    requires MintPayload(a) == MintPayload(b)
    ensures a == b
  {
    hide AllFlat;
    var x, y := MintPayload(a), MintPayload(b);
    assert x[0].value.text == if a.ImageShape? then "image" else "speech";
    assert y[0].value.text == if b.ImageShape? then "image" else "speech";
    assert "image"[0] != "speech"[0];
    assert x[1].value.text == a.model && y[1].value.text == b.model;
    if a.SpeechShape? {
      assert x[2].value.n == a.inputChars && y[2].value.n == b.inputChars;
      assert x[4..] == VoiceField(a.voice) && y[4..] == VoiceField(b.voice);
      SameVoice(a.voice, b.voice);
    } else {
      assert x[2].value.text == a.size && y[2].value.text == b.size;
    }
  }

  /** The content request says exactly the model, the rendering and the text. */
  lemma ContentSaysTheCall(a: Call, b: Call)
    requires ShapeOf(a).Some? && ShapeOf(b).Some?
    ensures Stringify(ContentPayload(ShapeOf(a).value, ContentText(a)))
         == Stringify(ContentPayload(ShapeOf(b).value, ContentText(b)))
      <==> ShapeOf(a) == ShapeOf(b) && ContentText(a) == ContentText(b)
  {
    StringifyInjective(ContentPayload(ShapeOf(a).value, ContentText(a)),
                       ContentPayload(ShapeOf(b).value, ContentText(b)));
    hide Stringify, CanonicalImageSize, ModelOk;
    if ContentPayload(ShapeOf(a).value, ContentText(a)) == ContentPayload(ShapeOf(b).value, ContentText(b)) {
      SameContentSameShape(ShapeOf(a).value, ContentText(a), ShapeOf(b).value, ContentText(b));
    }
  }

  lemma SameContentSameShape(a: Shape, s: string, b: Shape, t: string)
    requires ContentPayload(a, s) == ContentPayload(b, t)
    ensures s == t && a.model == b.model && a.ImageShape? == b.ImageShape?
    ensures a.ImageShape? ==> a == b
    ensures a.SpeechShape? ==> a.voice == b.voice
  {
    hide AllFlat;
    var x, y := ContentPayload(a, s), ContentPayload(b, t);
    assert x[1].key == if a.ImageShape? then "prompt" else "input";
    assert y[1].key == if b.ImageShape? then "prompt" else "input";
    assert "prompt"[0] != "input"[0];
    assert x[0].value.text == a.model && y[0].value.text == b.model && x[1].value.text == s && y[1].value.text == t;
    if a.SpeechShape? {
      assert x[3..] == VoiceField(a.voice) && y[3..] == VoiceField(b.voice);
      SameVoice(a.voice, b.voice);
    } else {
      assert x[2].value.text == a.size && y[2].value.text == b.size;
    }
  }

  // ---- The exchange ----------------------------------------------------------------------------

  datatype MediaWorld = MediaWorld(server: seq<MediaRequest> -> Reply, stopped: bool)

  /** generate and create. */
  function History(w: MediaWorld, c: Config, call: Call, h: seq<MediaRequest>): seq<MediaRequest> {
    var shape := ShapeOf(call);
    if shape.None? || w.stopped then h
    else
      var h1 := h + [Mint(c, shape.value)];
      var ticket := Redeemable(w.server(h1), shape.value);
      if ticket.None? then h1 else h1 + [Post(c, ticket.value, shape.value, ContentText(call))]
  }

  class MediaClient {
    const world: MediaWorld
    const config: Config
    var sent: seq<MediaRequest>

    constructor (world: MediaWorld, config: Config)
      ensures this.world == world && this.config == config && sent == []
    {
      this.world, this.config, sent := world, config, [];
    }

    method Send(r: MediaRequest) returns (reply: Reply)
      modifies this`sent
      ensures sent == old(sent) + [r] && reply == world.server(sent)
    {
      sent := sent + [r];
      reply := world.server(sent);
    }

    method Exchange(call: Call)
      modifies this`sent
      ensures sent == History(world, config, call, old(sent))
    {
      var shape := ShapeOf(call);
      hide ShapeOf, EchoesMatch, Expected, Stringify, MintPayload, ContentPayload;
      if shape.None? || world.stopped { return; }
      var reply := Send(Mint(config, shape.value));
      if !IsOk(reply) || reply.json.None? { return; }
      var ticket := AssertTicketBinding(reply.json.value, Expected(shape.value));
      if ticket.None? { return; }
      var _ := Send(Post(config, ticket.value, shape.value, ContentText(call)));
    }
  }

  /** The reply carries this ticket, and no present echo differs from what was asked for. */
  predicate Entitles(reply: Reply, shape: Shape, ticket: string) {
    && IsOk(reply) && reply.json.Some?
    && GetText(reply.json.value, "ticket") == Some(ticket) && ticket != ""
    && EchoesMatch(reply.json.value, Expected(shape))
  }

  /**
   * One ticket request at most, then one content request at most: on the ticket just
   * issued, whose present echoes all match, and without the key.
   */
  lemma ContentOnlyOnItsTicket(w: MediaWorld, c: Config, call: Call)
    ensures var h := History(w, c, call, []);
      && |h| <= 2
      && (|h| >= 1 ==> ShapeOf(call).Some? && h[0] == Mint(c, ShapeOf(call).value) && h[0].ticket.None?)
      && (|h| == 2 ==>
            && h[1].ticket.Some? && !h[1].apiKey && h[1].origin == c.inference
            && h[1] == Post(c, h[1].ticket.value, ShapeOf(call).value, ContentText(call))
            && Entitles(w.server(h[..1]), ShapeOf(call).value, h[1].ticket.value))
  {
    hide ShapeOf, EchoesMatch, Expected, Stringify, MintPayload, ContentPayload;
    var h := History(w, c, call, []);
    if |h| >= 1 { assert h[..1] == [] + [h[0]]; }
  }

  /**
   * The control origin is told exactly the shape: the bodies two accepted calls send it are
   * one text if and only if their shapes agree, and equal shapes lead to equally long exchanges.
   */
  lemma ControlLearnsExactlyTheShape(w: MediaWorld, c: Config, a: Call, b: Call)
    requires ShapeOf(a).Some? && ShapeOf(b).Some? && !w.stopped
    ensures History(w, c, a, []) != [] && History(w, c, b, []) != []
    ensures History(w, c, a, [])[0] == History(w, c, b, [])[0] <==> ShapeOf(a) == ShapeOf(b)
    ensures ShapeOf(a) == ShapeOf(b) ==> |History(w, c, a, [])| == |History(w, c, b, [])|
  {
    hide ShapeOf, EchoesMatch, Expected, Redeemable, Stringify, MintPayload, ContentPayload, Post;
    MintSaysTheShape(ShapeOf(a).value, ShapeOf(b).value);
  }

  /** Prompts never reach it, and of a spoken text only its UTF-16 length does. */
  lemma ContentIsInvisibleToControl(model: string, size: Option<string>, prompt: string, prompt': string,
                                    text: string, text': string, voice: Option<string>)
    ensures ShapeOf(Image(model, prompt, size, true)).Some? && ShapeOf(Image(model, prompt', size, true)).Some?
      ==> ShapeOf(Image(model, prompt, size, true)) == ShapeOf(Image(model, prompt', size, true))
    ensures ShapeOf(Speech(model, text, voice, true)).Some? && ShapeOf(Speech(model, text', voice, true)).Some?
      ==> (ShapeOf(Speech(model, text, voice, true)) == ShapeOf(Speech(model, text', voice, true))
           <==> |text| + Utf16.AstralCount(text) == |text'| + Utf16.AstralCount(text'))
  {
    Utf16.LengthCountsAstralTwice(text);
    Utf16.LengthCountsAstralTwice(text');
  }
}
