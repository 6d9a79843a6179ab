/**
 * The requests one encrypted chat, or one evidence fetch, puts on the wire, against
 * any servers at the two origins: their replies are an arbitrary function of all
 * requests so far.
 */
module ClientTraces {
  import opened Wrappers
  import opened Text
  import opened CanonicalJson
  import opened JsonRecord
  import Utf16

  datatype Body =
    | NoBody
    | Query(model: string, provider: string, nonce: string)
    | MintBody(model: string, provider: string)
    | NonceBody(nonce: string)
    | PaidBody(model: string, provider: string, maxTokens: int)
    | SealedBody(sealed: string)

  /** A query string is kept in the place of the body. apiKey: the request carries the account's bearer key. */
  datatype Request = Request(origin: string, path: string, apiKey: bool, ticket: Option<string>, body: Body)

  datatype Reply = NetworkError | Response(status: nat, json: Option<Json>)

  predicate IsOk(r: Reply) { r.Response? && 200 <= r.status < 300 }

  /**
   * server: the reply to the last request of a history. stops: whether the n-th local check (abort,
   * dispatch guard) fires.
   */
  datatype World = World(server: seq<Request> -> Reply, stops: nat -> bool)

  datatype Config = Config(control: string, inference: string)

  const ATTESTATION_TICKETS := "/v1/inference/attestation-tickets"
  const INFERENCE_TICKETS := "/v1/inference/tickets"
  const TEE_ATTESTATION := "/v1/tee/attestation"
  const MODELS := "/v1/models"

  // ---- The gates ------------------------------------------------------------------------

  /** A non-empty string field. */
  function EchoText(v: Json, key: string): Option<string> {
    var text := GetText(v, key);
    if text == Some("") then None else text
  }

  predicate EchoMatches(v: Json, key: string, want: string) { EchoText(v, key).None? || EchoText(v, key) == Some(want) }

  predicate Truthy(v: Option<Json>) {
    match v
    case None => false
    case Some(JNull) => false
    case Some(JBool(flag)) => flag
    case Some(JInt(n)) => n != 0
    case Some(JNegativeZero) => false
    case Some(JString(text)) => text != ""
    case Some(_) => true
  }

  predicate HexEqual(a: string, b: string) {
    var x, y := Strip(Lower(a)), Strip(Lower(b));
    a != "" && b != "" && x == y && x != "" && forall c | c in x :: IsHexDigit(c)
  }

  /** coerceGatewayVerdict followed by gateGatewayVerdict: the gateway's own verdict, bound to our nonce. */
  predicate VerdictGate(v: Json, nonce: string) {
    && GetText(v, "status") == Some("ok")
    && (Get(v, "privacy_modality").None? || Get(v, "privacy_modality") == Some(JNull)
        || GetText(v, "privacy_modality") == Some("e2ee"))
    && Truthy(Get(v, "supports_client_opaque_e2ee"))
    && GetText(v, "verification_level").Some?
    && GetText(v, "verification_level").value in ["provider-attested", "sdk-verified", "hardware-verified"]
    && GetText(v, "nonce").Some? && HexEqual(GetText(v, "nonce").value, nonce)
  }

  datatype Transport = Transport(
    protocol: string, streaming: bool, path: string,
    opens: (Json, string, string) -> bool,      // createSession accepts evidence, upstream model and nonce
    seal: seq<Message> -> Option<string>)       // encryption of the messages

  /** content: None when it is not a string. */
  datatype Message = Message(role: string, content: Option<string>)

  datatype Chat = Chat(model: string, provider: string, messages: seq<Message>, maxTokens: int, transport: Transport)

  const MAX_MESSAGE_CHARS := 128 * 1024
  const MAX_TOTAL_CHARS := 256 * 1024

  predicate MessageOk(m: Message) {
    m.role in ["user", "system", "assistant"] && m.content.Some?
    && 1 <= Utf16.Length(m.content.value) <= MAX_MESSAGE_CHARS
  }

  function TotalChars(messages: seq<Message>): nat {
    if messages == [] then 0
    else
      var last := messages[|messages| - 1];
      TotalChars(messages[..|messages| - 1]) + (if last.content.Some? then Utf16.Length(last.content.value) else 0)
  }

  function UserCount(messages: seq<Message>): nat {
    if messages == [] then 0
    else UserCount(messages[..|messages| - 1]) + (if messages[|messages| - 1].role == "user" then 1 else 0)
  }

  /** What validateE2eeMessages asks of the whole list. */
  predicate MessagesOk(messages: seq<Message>) {
    && (forall k | 0 <= k < |messages| :: MessageOk(messages[k]))
    && TotalChars(messages) <= MAX_TOTAL_CHARS && UserCount(messages) > 0
  }

  /** The loop stops at the first message that is wrong or takes the running total over the cap. */
  method ValidateE2eeMessages(messages: seq<Message>) returns (ok: bool)
    ensures ok <==> MessagesOk(messages)
  {
    hide TotalChars, UserCount, MessageOk;
    NoMessages();
    if messages == [] { return false; }
    var total, userCount := 0, 0;
    assert messages[..0] == [];
    for i := 0 to |messages|
      invariant forall k | 0 <= k < i :: MessageOk(messages[k])
      invariant total == TotalChars(messages[..i]) && total <= MAX_TOTAL_CHARS
      invariant userCount == UserCount(messages[..i])
    {
      var message := messages[i];
      if !MessageOk(message) { return false; }
      OneMoreMessage(messages, i);
      total := total + Utf16.Length(message.content.value);
      if total > MAX_TOTAL_CHARS {
        TotalGrows(messages, i + 1);
        return false;
      }
      if message.role == "user" { userCount := userCount + 1; }
    }
    assert messages[..|messages|] == messages;
    ok := userCount > 0;
  }

  lemma NoMessages()
    ensures TotalChars([]) == 0 && UserCount([]) == 0
  {}

  lemma OneMoreMessage(messages: seq<Message>, i: nat)
    requires i < |messages| && MessageOk(messages[i])
    ensures messages[i].content.Some?
    ensures TotalChars(messages[..i + 1]) == TotalChars(messages[..i]) + Utf16.Length(messages[i].content.value)
    ensures UserCount(messages[..i + 1]) == UserCount(messages[..i]) + (if messages[i].role == "user" then 1 else 0)
  {
    var longer := messages[..i + 1];
    assert longer[..|longer| - 1] == messages[..i] && longer[|longer| - 1] == messages[i];
  }

  lemma {:induction false} TotalGrows(messages: seq<Message>, i: nat)
    requires i <= |messages|
    ensures TotalChars(messages[..i]) <= TotalChars(messages)
    decreases |messages|
  {
    if i < |messages| {
      var init := messages[..|messages| - 1];
      TotalGrows(init, i);
      assert init[..i] == messages[..i];
    } else {
      assert messages[..i] == messages;
    }
  }

  /** Echo, verdict and raw-evidence gates on the attestation response. */
  predicate GatesPass(chat: Chat, nonce: string, reply: Reply) {
    && IsOk(reply) && reply.json.Some?
    && var v := reply.json.value;
    && Get(v, "evidence").Some?
    && EchoMatches(v, "provider", chat.provider) && EchoMatches(v, "model", chat.model)
    && EchoText(v, "privacy_class") != Some("tee")
    && EchoMatches(v, "protocol", chat.transport.protocol)
    && Get(v, "attestation").Some? && VerdictGate(Get(v, "attestation").value, nonce)
    && chat.transport.opens(Get(v, "evidence").value,
                            if EchoText(v, "upstream_model").Some? then EchoText(v, "upstream_model").value
                            else chat.model, nonce)
  }

  /** The ticket in a reply of the control origin. */
  function Issued(reply: Reply): Option<string> {
    if IsOk(reply) && reply.json.Some? then EchoText(reply.json.value, "ticket") else None
  }

  /** The advertised output ceiling, as far as it matters here: some positive integer or none. */
  function Ceiling(reply: Reply, model: string, provider: string): Option<int> {
    if !IsOk(reply) || reply.json.None? then None
    else match Get(reply.json.value, "data")
      case Some(JArray(items)) => FindCeiling(items, model, provider)
      case _ => None
  }

  function FindCeiling(items: seq<Json>, model: string, provider: string): Option<int> {
    if items == [] then None
    else if GetText(items[0], "id") == Some(model) then RouteCeiling(items[0], provider)
    else FindCeiling(items[1..], model, provider)
  }

  function RouteCeiling(entry: Json, provider: string): Option<int> {
    var own := match Get(entry, "provider_routes")
                   case Some(JArray(routes)) => FindRoute(routes, provider)
                   case _ => None;
    match (if own.Some? then own else Get(entry, "max_output_tokens"))
    case Some(JInt(n)) => if n > 0 then Some(n) else None
    case _ => None
  }

  /** route?.max_output_tokens of the first route of this provider; null counts as absent. */
  function FindRoute(routes: seq<Json>, provider: string): Option<Json> {
    if routes == [] then None
    else if GetText(routes[0], "provider") == Some(provider) then
      (if Get(routes[0], "max_output_tokens") == Some(JNull) then None else Get(routes[0], "max_output_tokens"))
    else FindRoute(routes[1..], provider)
  }

  // ---- The requests -----------------------------------------------------------------------

  function MintAttestation(c: Config, model: string, provider: string): Request {
    Request(c.control, ATTESTATION_TICKETS, true, None, MintBody(model, provider))
  }

  function Attest(c: Config, ticket: string, nonce: string): Request {
    Request(c.inference, TEE_ATTESTATION, false, Some(ticket), NonceBody(nonce))
  }

  function ReadModels(c: Config): Request { Request(c.control, MODELS, true, None, NoBody) }

  function MintPaid(c: Config, chat: Chat, maxTokens: int): Request {
    Request(c.control, INFERENCE_TICKETS, true, None, PaidBody(chat.model, chat.provider, maxTokens))
  }

  function Content(c: Config, chat: Chat, ticket: string, sealed: string): Request {
    Request(c.inference, chat.transport.path, false, Some(ticket), SealedBody(sealed))
  }

  function AttestWithKey(c: Config, model: string, provider: string, nonce: string): Request {
    Request(c.inference, TEE_ATTESTATION, true, None, Query(model, provider, nonce))
  }

  // ---- chatOperation as a function of the world ---------------------------------------------

  /** h: everything sent before. The result is everything sent up to the end of the chat. */
  function ChatHistory(w: World, c: Config, chat: Chat, nonce: string, h: seq<Request>): seq<Request> {
    if !MessagesOk(chat.messages) || chat.maxTokens <= 0 || w.stops(0) then h
    else
      var h1 := h + [MintAttestation(c, chat.model, chat.provider)];
      var ticket := Issued(w.server(h1));
      if ticket.None? || w.stops(1) then h1
      else
        var h2 := h1 + [Attest(c, ticket.value, nonce)];
        if w.stops(2) || !GatesPass(chat, nonce, w.server(h2)) || chat.model == "" || w.stops(3) then h2
        else PaidHistory(w, c, chat, h2)
  }

  function PaidHistory(w: World, c: Config, chat: Chat, h: seq<Request>): seq<Request> {
    var h3 := if chat.transport.streaming then h else h + [ReadModels(c)];
    var reserved := if chat.transport.streaming then Some(chat.maxTokens)
                        else Ceiling(w.server(h3), chat.model, chat.provider);
    if reserved.None? || w.stops(4) then h3
    else
      var h4 := h3 + [MintPaid(c, chat, reserved.value)];
      var ticket := Issued(w.server(h4));
      if ticket.None? || w.stops(5) || w.stops(6) || chat.transport.seal(chat.messages).None? then h4
      else h4 + [Content(c, chat, ticket.value, chat.transport.seal(chat.messages).value)]
  }

  /** fetchAttestationEvidence; cancelled: a failed mint was the caller's own cancellation. */
  function FetchHistory(w: World, c: Config, model: string, provider: string, nonce: string,
                        h: seq<Request>): seq<Request> {
    var minted := if w.stops(0) then h else h + [MintAttestation(c, model, provider)];
    var failed := w.stops(0) || !IsOk(w.server(minted)) || w.server(minted).json.None?;
    var ticket := if failed then None else Issued(w.server(minted));
    if (failed && (c.control != c.inference || w.stops(1))) || (ticket.None? && c.control != c.inference) then minted
    else
      var keyed := AttestWithKey(c, model, provider, nonce);
      if ticket.None? then minted + [keyed]
      else
        var redeemed := minted + [Attest(c, ticket.value, nonce)];
        var reply := w.server(redeemed);
        if !reply.Response? || IsOk(reply) || reply.status !in [401, 404] || c.control != c.inference then redeemed
        else redeemed + [keyed]
  }

  // ---- The client, sending one request at a time ----------------------------------------------

  class Wire {
    const world: World
    var sent: seq<Request>

    constructor (world: World)
      ensures this.world == world && sent == []
    {
      this.world, sent := world, [];
    }

    method Send(r: Request) returns (reply: Reply)
      modifies this`sent
      ensures sent == old(sent) + [r] && reply == world.server(sent)
    {
      sent := sent + [r];
      reply := world.server(sent);
    }

    method ChatOperation(c: Config, chat: Chat, nonce: string)
      modifies this`sent
      ensures sent == ChatHistory(world, c, chat, nonce, old(sent))
    {
      hide GatesPass, Ceiling, Issued, MessagesOk;
      var valid := ValidateE2eeMessages(chat.messages);
      if !valid || chat.maxTokens <= 0 || world.stops(0) { return; }
      var minted := Send(MintAttestation(c, chat.model, chat.provider));
      var attestationTicket := Issued(minted);
      if attestationTicket.None? || world.stops(1) { return; }
      var attested := Send(Attest(c, attestationTicket.value, nonce));
      if world.stops(2) || !GatesPass(chat, nonce, attested) || chat.model == "" || world.stops(3) { return; }
      var reserved := Some(chat.maxTokens);
      if !chat.transport.streaming {
        var catalog := Send(ReadModels(c));
        reserved := Ceiling(catalog, chat.model, chat.provider);
      }
      if reserved.None? || world.stops(4) { return; }
      var paid := Send(MintPaid(c, chat, reserved.value));
      var ticket := Issued(paid);
      var sealed := chat.transport.seal(chat.messages);
      if ticket.None? || world.stops(5) || world.stops(6) || sealed.None? { return; }
      var _ := Send(Content(c, chat, ticket.value, sealed.value));
    }

    method FetchAttestationEvidence(c: Config, model: string, provider: string, nonce: string)
      modifies this`sent
      ensures sent == FetchHistory(world, c, model, provider, nonce, old(sent))
    {
      hide Issued;
      var ticket: Option<string> := None;
      var failed := true;
      if !world.stops(0) {
        var minted := Send(MintAttestation(c, model, provider));
        if IsOk(minted) && minted.json.Some? { failed, ticket := false, Issued(minted); }
      }
      if failed && (c.control != c.inference || world.stops(1)) { return; }
      if ticket.None? && c.control != c.inference { return; }
      if ticket.Some? {
        var reply := Send(Attest(c, ticket.value, nonce));
        if !reply.Response? || IsOk(reply) || reply.status !in [401, 404] || c.control != c.inference { return; }
      }
      var _ := Send(AttestWithKey(c, model, provider, nonce));
    }
  }

  // ---- What every history satisfies -------------------------------------------------------------

  predicate IsAttestationMint(r: Request) { r.body.MintBody? }
  predicate IsRedemption(r: Request) { r.body.NonceBody? }
  predicate IsPaidMint(r: Request) { r.body.PaidBody? }
  predicate IsContent(r: Request) { r.body.SealedBody? }

  /** Position i of the history is justified by the reply to an earlier request. */
  ghost predicate Justified(w: World, c: Config, chat: Chat, nonce: string, h: seq<Request>, i: nat)
    requires i < |h|
  {
    && (h[i].apiKey ==> h[i].origin == c.control && h[i].ticket.None?)
    && (IsRedemption(h[i]) ==> i > 0 && IsAttestationMint(h[i - 1]) && h[i].ticket == Issued(w.server(h[..i])))
    && (IsPaidMint(h[i]) ==>
          exists j | 0 <= j < i :: IsRedemption(h[j]) && GatesPass(chat, nonce, w.server(h[..j + 1])))
    && (IsContent(h[i]) ==>
          && i > 0 && IsPaidMint(h[i - 1])
          && h[i].ticket == Issued(w.server(h[..i])) && h[i].ticket.Some?)
  }

  /** The order of a chat: attestation ticket, attestation, catalog, paid ticket, content. */
  function Rank(r: Request): nat {
    match r.body
    case MintBody(_, _) => 0
    case NonceBody(_) => 1
    case NoBody => 2
    case Query(_, _, _) => 2
    case PaidBody(_, _, _) => 3
    case SealedBody(_) => 4
  }

  /** Every request is justified, and no kind of request comes twice or out of order. */
  ghost predicate Safe(w: World, c: Config, chat: Chat, nonce: string, h: seq<Request>) {
    && (forall i | 0 <= i < |h| :: Justified(w, c, chat, nonce, h, i))
    && forall i, j | 0 <= i < j < |h| :: Rank(h[i]) < Rank(h[j])
  }

  lemma SafeExtends(w: World, c: Config, chat: Chat, nonce: string, h: seq<Request>, r: Request)
    requires Safe(w, c, chat, nonce, h) && Justified(w, c, chat, nonce, h + [r], |h|)
    requires h != [] ==> Rank(h[|h| - 1]) < Rank(r)
    ensures Safe(w, c, chat, nonce, h + [r])
  {
    hide GatesPass, Issued;
    var longer := h + [r];
    forall i | 0 <= i < |h| ensures Justified(w, c, chat, nonce, longer, i) {
      assert Justified(w, c, chat, nonce, h, i);
      assert longer[..i] == h[..i];
      if IsPaidMint(h[i]) {
        var j :| 0 <= j < i && IsRedemption(h[j]) && GatesPass(chat, nonce, w.server(h[..j + 1]));
        assert longer[..j + 1] == h[..j + 1] && IsRedemption(longer[j]);
      }
    }
  }

  /**
   * In a chat the key goes to the control origin only and never beside a ticket; each kind of
   * ticket is issued and redeemed at most once, the paid one only after every gate has passed,
   * and content goes out only on the paid one, last.
   */
  lemma ChatIsSafe(w: World, c: Config, chat: Chat, nonce: string)
    ensures Safe(w, c, chat, nonce, ChatHistory(w, c, chat, nonce, []))
  {
    hide GatesPass, Ceiling, Issued, Safe;
    var h := ChatHistory(w, c, chat, nonce, []);
    NothingIsSafe(w, c, chat, nonce);
    var h1 := [] + [MintAttestation(c, chat.model, chat.provider)];
    SafeExtends(w, c, chat, nonce, [], h1[0]);
    var ticket := Issued(w.server(h1));
    if h != [] && h != h1 {
      var h2 := h1 + [Attest(c, ticket.value, nonce)];
      assert h2[..1] == h1;
      SafeExtends(w, c, chat, nonce, h1, h2[1]);
      if h != h2 { PaidIsSafe(w, c, chat, nonce, h2); }
    }
  }

  lemma NothingIsSafe(w: World, c: Config, chat: Chat, nonce: string)
    ensures Safe(w, c, chat, nonce, [])
  {}

  lemma PaidIsSafe(w: World, c: Config, chat: Chat, nonce: string, h: seq<Request>)
    requires Safe(w, c, chat, nonce, h) && |h| == 2 && IsRedemption(h[1]) && GatesPass(chat, nonce, w.server(h))
    ensures Safe(w, c, chat, nonce, PaidHistory(w, c, chat, h))
  {
    hide GatesPass, Ceiling, Issued, Safe;
    var models, h3 := ReadModels(c), if chat.transport.streaming then h else h + [ReadModels(c)];
    if !chat.transport.streaming { SafeExtends(w, c, chat, nonce, h, models); }
    var reserved := if chat.transport.streaming then Some(chat.maxTokens)
                        else Ceiling(w.server(h3), chat.model, chat.provider);
    if reserved.Some? {
      var h4 := h3 + [MintPaid(c, chat, reserved.value)];
      assert h4[..1 + 1] == h && IsRedemption(h4[1]);
      SafeExtends(w, c, chat, nonce, h3, h4[|h3|]);
      var ticket := Issued(w.server(h4));
      if ticket.Some? && chat.transport.seal(chat.messages).Some? {
        var content := Content(c, chat, ticket.value, chat.transport.seal(chat.messages).value);
        assert (h4 + [content])[..|h4|] == h4;
        SafeExtends(w, c, chat, nonce, h4, content);
      }
    }
  }

  /**
   * When the two origins differ, no request of a chat or of an evidence fetch takes the key to the
   * inference origin.
   */
  lemma KeyStaysOnControl(w: World, c: Config, chat: Chat, nonce: string, r: Request)
    requires c.control != c.inference
    ensures r in ChatHistory(w, c, chat, nonce, []) && r.apiKey ==> r.origin == c.control
    ensures r in FetchHistory(w, c, chat.model, chat.provider, nonce, []) && r.apiKey ==> r.origin == c.control
  {
    hide GatesPass, Ceiling, Issued;
    ChatIsSafe(w, c, chat, nonce);
    var h := ChatHistory(w, c, chat, nonce, []);
    if r in h {
      var i :| 0 <= i < |h| && h[i] == r;
      assert Justified(w, c, chat, nonce, h, i);
    }
  }

  /**
   * An evidence fetch shows the key to the inference origin exactly when the two origins are one and
   * it sends anything at all.
   */
  lemma KeySharedExactlyOnOneOrigin(w: World, c: Config, model: string, provider: string, nonce: string)
    ensures var h := FetchHistory(w, c, model, provider, nonce, []);
      (exists r :: r in h && r.apiKey && r.origin == c.inference) <==> c.control == c.inference && h != []
  {
    hide Issued;
    var h := FetchHistory(w, c, model, provider, nonce, []);
    if c.control == c.inference && h != [] {
      assert h[0].apiKey && h[0].origin == c.inference && h[0] in h;
    }
  }

  /** In an evidence fetch a ticket is minted and redeemed at most once, and redeemed as issued. */
  lemma FetchRedeemsOnce(w: World, c: Config, model: string, provider: string, nonce: string, i: nat, j: nat)
    requires var h := FetchHistory(w, c, model, provider, nonce, []);
      i < |h| && j < |h| && (IsRedemption(h[i]) || IsAttestationMint(h[i])) && Rank(h[j]) == Rank(h[i])
    ensures i == j
    ensures var h := FetchHistory(w, c, model, provider, nonce, []);
      IsRedemption(h[i]) ==> i == 1 && h[i].ticket == Issued(w.server(h[..1])) && IsAttestationMint(h[0])
  {
    hide Issued;
    var h := FetchHistory(w, c, model, provider, nonce, []);
    assert h[0] == MintAttestation(c, model, provider) ==> h[..1] == [] + [h[0]];
  }

  /** One is the other but for its last request, if that is content, or for the sealed body of it. */
  ghost predicate AlikeUpToContent(a: seq<Request>, b: seq<Request>) {
    var k := if |a| <= |b| then |a| else |b|;
    && (forall i | 0 <= i < k :: a[i] == b[i]
          || (IsContent(a[i]) && IsContent(b[i]) && a[i].(body := b[i].body) == b[i]))
    && (forall i | k <= i < |a| :: IsContent(a[i]))
    && (forall i | k <= i < |b| :: IsContent(b[i]))
  }

  /**
   * Messages influence no request but the sealed one: chats with invalid messages send
   * nothing, and any two lists of valid ones look alike to every server until then.
   */
  lemma MessagesReachOnlyTheContent(w: World, c: Config, chat: Chat, nonce: string, other: seq<Message>)
    ensures !MessagesOk(other) ==> ChatHistory(w, c, chat.(messages := other), nonce, []) == []
    ensures MessagesOk(chat.messages) && MessagesOk(other) ==>
      AlikeUpToContent(ChatHistory(w, c, chat, nonce, []), ChatHistory(w, c, chat.(messages := other), nonce, []))
  {
    hide Ceiling, Issued, MessagesOk;
    GatesIgnoreMessages(w, chat, nonce, other);
    hide GatesPass;
  }

  lemma GatesIgnoreMessages(w: World, chat: Chat, nonce: string, other: seq<Message>)
    ensures forall reply :: GatesPass(chat.(messages := other), nonce, reply) == GatesPass(chat, nonce, reply)
  {}
}
