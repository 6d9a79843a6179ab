/**
 * What a chat and an evidence fetch put on the wire, said in the wire's own terms: the literal
 * requests, what a reply must hold before anything paid is sent, and when the key path is taken.
 */
module ChatWire {
  import opened Wrappers
  import opened Text
  import opened CanonicalJson
  import opened JsonRecord
  import opened ClientTraces
  import Utf16

  // ---- What the attestation reply must hold --------------------------------------------------

  /** A nonempty text of lowercase hex digits. */
  predicate HexText(x: string) { x != "" && forall c | c in x :: '0' <= c <= '9' || 'a' <= c <= 'f' }

  /** The text spells x, in any case and with or without 0x. */
  predicate Spells(a: string, x: string) { Lower(a) == x || Lower(a) == "0x" + x }

  /** Two texts of one nonempty hex value, whatever their case and 0x prefix. */
  ghost predicate SameHex(a: string, b: string) {
    exists x: string :: HexText(x) && Spells(a, x) && Spells(b, x)
  }

  /** A present, non-empty text under the key is this one. */
  predicate NoOther(v: Json, key: string, want: string) { GetText(v, key) in [None, Some(""), Some(want)] }

  /** The gateway's own verdict: ok, client-opaque, at an accepted level, and bound to our nonce. */
  ghost predicate VouchesFor(a: Json, nonce: string) {
    && GetText(a, "status") == Some("ok")
    && Get(a, "privacy_modality") in [None, Some(JNull), Some(JString("e2ee"))]
    && Get(a, "supports_client_opaque_e2ee")
         !in [None, Some(JNull), Some(JBool(false)), Some(JInt(0)), Some(JNegativeZero), Some(JString(""))]
    && GetText(a, "verification_level")
         in [Some("provider-attested"), Some("sdk-verified"), Some("hardware-verified")]
    && GetText(a, "nonce").Some? && SameHex(GetText(a, "nonce").value, nonce)
  }

  /** A good answer to the redemption, for the route that was asked for. */
  ghost predicate Vouches(chat: Chat, nonce: string, reply: Reply) {
    && reply.Response? && 200 <= reply.status <= 299 && reply.json.Some?
    && var v := reply.json.value;
    && Get(v, "evidence").Some?
    && NoOther(v, "provider", chat.provider) && NoOther(v, "model", chat.model)
    && NoOther(v, "protocol", chat.transport.protocol) && GetText(v, "privacy_class") != Some("tee")
    && Get(v, "attestation").Some? && VouchesFor(Get(v, "attestation").value, nonce)
  }

  /** The transport accepts the raw evidence for the model the reply names, or else the one asked for. */
  predicate OpensSession(chat: Chat, nonce: string, reply: Reply) {
    && reply.Response? && reply.json.Some? && Get(reply.json.value, "evidence").Some?
    && var upstream := GetText(reply.json.value, "upstream_model");
      chat.transport.opens(Get(reply.json.value, "evidence").value,
                           if upstream in [None, Some("")] then chat.model else upstream.value, nonce)
  }

  lemma StripOfPrefixed(s: string, x: string)
    requires x != "" && 'x' !in x && (s == x || s == "0x" + x)
    ensures Strip(s) == x
  {
    if s == x {
      if |s| >= 2 { assert s[1] in x; }
    } else {
      assert s[2..] == x;
    }
  }

  lemma HexEqualExactly(a: string, b: string)
    ensures HexEqual(a, b) <==> SameHex(a, b)
  {
    if HexEqual(a, b) {
      var x := Strip(Lower(a));
      assert HexText(x);
      Prefixed(Lower(a));
      Prefixed(Lower(b));
      assert Spells(a, x) && Spells(b, x);
    }
    if SameHex(a, b) {
      var x: string :| HexText(x) && Spells(a, x) && Spells(b, x);
      StripOfPrefixed(Lower(a), x);
      StripOfPrefixed(Lower(b), x);
    }
  }

  lemma Prefixed(s: string)
    ensures s == Strip(s) || s == "0x" + Strip(s)
  {}

  /** On texts already in lower case the nonce must be the very same. */
  lemma LowerNoncesMustBeEqual(a: string, b: string)
    requires b != "" && (forall c | c in a :: IsHexDigit(c)) && forall c | c in b :: IsHexDigit(c)
    ensures HexEqual(a, b) <==> a == b
  {
    LowerKeeps(a);
    LowerKeeps(b);
    if |a| >= 2 { assert a[1] in a; }
    if |b| >= 2 { assert b[1] in b; }
  }

  lemma LowerKeeps(s: string)
    requires forall c | c in s :: IsHexDigit(c)
    ensures Lower(s) == s
  {
    forall i | 0 <= i < |s| ensures Lower(s)[i] == s[i] { assert s[i] in s; }
  }

  lemma VerdictExactly(a: Json, nonce: string)
    ensures VerdictGate(a, nonce) <==> VouchesFor(a, nonce)
  {
    if GetText(a, "nonce").Some? { HexEqualExactly(GetText(a, "nonce").value, nonce); }
    ModalityExactly(Get(a, "privacy_modality"));
    TruthyExactly(Get(a, "supports_client_opaque_e2ee"));
    hide SameHex, HexEqual, Truthy;
  }

  lemma ModalityExactly(v: Option<Json>)
    ensures v in [None, Some(JNull), Some(JString("e2ee"))]
      <==> v.None? || v == Some(JNull) || (v.value.JString? && v.value.text == "e2ee")
  {}

  lemma TruthyExactly(v: Option<Json>)
    ensures Truthy(v)
      <==> v !in [None, Some(JNull), Some(JBool(false)), Some(JInt(0)), Some(JNegativeZero), Some(JString(""))]
  {}

  lemma GatesExactly(chat: Chat, nonce: string, reply: Reply)
    ensures GatesPass(chat, nonce, reply) <==> Vouches(chat, nonce, reply) && OpensSession(chat, nonce, reply)
  {
    hide VerdictGate, VouchesFor, Get, GetText;
    if reply.Response? && reply.json.Some? && Get(reply.json.value, "attestation").Some? {
      VerdictExactly(Get(reply.json.value, "attestation").value, nonce);
    }
  }

  // ---- The literal requests ------------------------------------------------------------------------

  /** The ticket a good reply carries. */
  predicate Carries(reply: Reply, ticket: Option<string>) {
    && reply.Response? && 200 <= reply.status <= 299 && reply.json.Some?
    && ticket.Some? && ticket.value != "" && GetText(reply.json.value, "ticket") == ticket
  }

  /** Request i of a chat. */
  ghost predicate ChatRequest(w: World, c: Config, chat: Chat, nonce: string, h: seq<Request>, i: nat)
    requires i < |h|
  {
    var paid := if chat.transport.streaming then 2 else 3;
    && (i == 0 ==> h[i] == Request(c.control, "/v1/inference/attestation-tickets", true, None,
                                   MintBody(chat.model, chat.provider)))
    && (i == 1 ==> Carries(w.server(h[..1]), h[i].ticket)
                   && h[i] == Request(c.inference, "/v1/tee/attestation", false, h[i].ticket, NonceBody(nonce)))
    && (i == 2 && !chat.transport.streaming ==> h[i] == Request(c.control, "/v1/models", true, None, NoBody))
    && (i == paid ==>
          && h[i].body.PaidBody?
          && (chat.transport.streaming ==> h[i].body.maxTokens == chat.maxTokens)
          && (!chat.transport.streaming ==>
                Ceiling(w.server(h[..3]), chat.model, chat.provider) == Some(h[i].body.maxTokens))
          && h[i] == Request(c.control, "/v1/inference/tickets", true, None,
                             PaidBody(chat.model, chat.provider, h[i].body.maxTokens)))
    && (i == paid + 1 ==>
          && Carries(w.server(h[..paid + 1]), h[i].ticket) && chat.transport.seal(chat.messages).Some?
          && h[i] == Request(c.inference, chat.transport.path, false, h[i].ticket,
                             SealedBody(chat.transport.seal(chat.messages).value)))
    && i <= paid + 1
  }

  /** Every chat sends a prefix of one list of literal requests: ticket, attestation, catalog, paid ticket, content. */
  lemma ChatSendsExactly(w: World, c: Config, chat: Chat, nonce: string, i: nat)
    requires i < |ChatHistory(w, c, chat, nonce, [])|
    ensures ChatRequest(w, c, chat, nonce, ChatHistory(w, c, chat, nonce, []), i)
  {
    hide GatesPass, Ceiling, MessagesOk;
    var h := ChatHistory(w, c, chat, nonce, []);
    Prefixes(h);
  }

  lemma Prefixes(h: seq<Request>)
    ensures |h| >= 1 ==> h[..1] == [] + [h[0]]
    ensures |h| >= 2 ==> h[..2] == [] + [h[0]] + [h[1]]
    ensures |h| >= 3 ==> h[..3] == [] + [h[0]] + [h[1]] + [h[2]]
    ensures |h| >= 4 ==> h[..4] == [] + [h[0]] + [h[1]] + [h[2]] + [h[3]]
    ensures |h| == 3 ==> h == [] + [h[0]] + [h[1]] + [h[2]]
  {}

  /**
   * Anything after the redemption, paid ticket and content among it, is sent only if the reply
   * to the redemption vouches for the route and opens a session; and if it does, the chat goes
   * on, unless it was stopped or names no model.
   */
  lemma PaidOnlyWhenVouched(w: World, c: Config, chat: Chat, nonce: string)
    ensures var h := ChatHistory(w, c, chat, nonce, []);
      && (|h| >= 3 ==> Vouches(chat, nonce, w.server(h[..2])) && OpensSession(chat, nonce, w.server(h[..2])))
      && (|h| == 2 && Vouches(chat, nonce, w.server(h)) && OpensSession(chat, nonce, w.server(h)) ==>
            w.stops(2) || w.stops(3) || chat.model == "" || (chat.transport.streaming && w.stops(4)))
  {
    hide GatesPass, Ceiling, MessagesOk, Issued, Vouches, OpensSession;
    var h := ChatHistory(w, c, chat, nonce, []);
    Prefixes(h);
    if |h| >= 2 {
      GatesExactly(chat, nonce, w.server(h[..2]));
      assert |h| == 2 ==> h[..2] == h;
    }
  }

  ghost predicate CarriesTicket(reply: Reply) { exists ticket :: Carries(reply, ticket) }

  /**
   * Each request of a chat is sent exactly when everything it waits for is there: valid messages, the
   * ticket in the reply before, the vouching reply, the ceiling, the sealed text, and no stop on the way.
   */
  lemma EachRequestExactly(w: World, c: Config, chat: Chat, nonce: string)
    ensures var h := ChatHistory(w, c, chat, nonce, []);
      var paid := if chat.transport.streaming then 2 else 3;
      && (|h| >= 1 <==> MessagesOk(chat.messages) && chat.maxTokens > 0 && !w.stops(0))
      && (|h| >= 1 ==> (|h| >= 2 <==> CarriesTicket(w.server(h[..1])) && !w.stops(1)))
      && (|h| >= 2 ==>
            (|h| >= 3 <==>
              (&& Vouches(chat, nonce, w.server(h[..2])) && OpensSession(chat, nonce, w.server(h[..2]))
               && chat.model != "" && !w.stops(2) && !w.stops(3) && (chat.transport.streaming ==> !w.stops(4)))))
      && (|h| >= 3 && !chat.transport.streaming ==>
            (|h| >= 4 <==> Ceiling(w.server(h[..3]), chat.model, chat.provider).Some? && !w.stops(4)))
      && (|h| > paid ==>
            (|h| == paid + 2 <==>
              (&& CarriesTicket(w.server(h[..paid + 1])) && chat.transport.seal(chat.messages).Some?
               && !w.stops(5) && !w.stops(6))))
      && |h| <= paid + 2
  {
    hide GatesPass, Ceiling, MessagesOk, Issued, Vouches, OpensSession, CarriesTicket;
    var h := ChatHistory(w, c, chat, nonce, []);
    Prefixes(h);
    forall reply ensures Issued(reply).Some? <==> CarriesTicket(reply) { IssuedExactly(reply); }
    if |h| >= 2 { GatesExactly(chat, nonce, w.server(h[..2])); }
  }

  lemma IssuedExactly(reply: Reply)
    ensures Issued(reply).Some? <==> CarriesTicket(reply)
  {
    if Issued(reply).Some? { assert Carries(reply, Issued(reply)); }
  }

  // ---- The reserved ceiling --------------------------------------------------------------------------

  /** The catalog entry that counts: the first of this model. */
  ghost predicate FirstWith(items: seq<Json>, key: string, text: string, i: nat) {
    && i < |items| && GetText(items[i], key) == Some(text)
    && forall j | 0 <= j < i :: GetText(items[j], key) != Some(text)
  }

  lemma {:induction false} FirstEntryCounts(items: seq<Json>, model: string, provider: string) returns (i: nat)
    requires FindCeiling(items, model, provider).Some?
    ensures FirstWith(items, "id", model, i) && RouteCeiling(items[i], provider) == FindCeiling(items, model, provider)
  {
    if GetText(items[0], "id") == Some(model) {
      i := 0;
    } else {
      hide GetText, RouteCeiling;
      i := FirstEntryCounts(items[1..], model, provider);
      i := i + 1;
      forall j | 0 <= j < i ensures GetText(items[j], "id") != Some(model) {
        if j > 0 { assert items[j] == items[1..][j - 1]; }
      }
    }
  }

  lemma {:induction false} FirstRouteCounts(routes: seq<Json>, provider: string)
    ensures FindRoute(routes, provider).Some? ==>
      exists k: nat :: FirstWith(routes, "provider", provider, k)
        && Get(routes[k], "max_output_tokens") == FindRoute(routes, provider)
        && FindRoute(routes, provider) != Some(JNull)
    ensures FindRoute(routes, provider).None? ==>
      forall k: nat :: FirstWith(routes, "provider", provider, k) ==>
        Get(routes[k], "max_output_tokens") in [None, Some(JNull)]
  {
    if routes != [] && GetText(routes[0], "provider") != Some(provider) {
      var rest := routes[1..];
      FirstRouteCounts(rest, provider);
      hide FindRoute, GetText, Get;
      forall k: nat | FirstWith(rest, "provider", provider, k) ensures FirstWith(routes, "provider", provider, k + 1) {
        forall j | 0 <= j < k + 1 ensures GetText(routes[j], "provider") != Some(provider) {
          if j > 0 { assert routes[j] == rest[j - 1]; }
        }
      }
      forall k: nat | FirstWith(routes, "provider", provider, k)
        ensures k > 0 && FirstWith(rest, "provider", provider, k - 1)
      {
        forall j | 0 <= j < k - 1 ensures GetText(rest[j], "provider") != Some(provider) {
          assert rest[j] == routes[j + 1];
        }
      }
    } else if routes != [] {
      assert FirstWith(routes, "provider", provider, 0);
    }
  }

  /**
   * The ceiling reserved for a non-streaming relay is a positive integer the catalog states in the
   * first entry of this model: for the first route of this provider if that states one, else for
   * the entry itself.
   */
  lemma CeilingIsAdvertised(reply: Reply, model: string, provider: string) returns (i: nat)
    requires Ceiling(reply, model, provider).Some?
    ensures reply.Response? && 200 <= reply.status <= 299 && reply.json.Some?
    ensures Get(reply.json.value, "data").Some? && Get(reply.json.value, "data").value.JArray?
    ensures var n, items := Ceiling(reply, model, provider).value, Get(reply.json.value, "data").value.items;
      && n > 0 && FirstWith(items, "id", model, i)
      && StatesCeiling(items[i], provider, n)
  {
    var items := Get(reply.json.value, "data").value.items;
    i := FirstEntryCounts(items, model, provider);
    var routes := Get(items[i], "provider_routes");
    if routes.Some? && routes.value.JArray? { FirstRouteCounts(routes.value.items, provider); }
    hide FindRoute, Get, FirstWith;
  }

  ghost predicate StatesCeiling(entry: Json, provider: string, n: int) {
    || (RoutesOf(entry).Some? && RouteStates(RoutesOf(entry).value, provider, n))
    || (Get(entry, "max_output_tokens") == Some(JInt(n))
        && (RoutesOf(entry).Some? ==> RouteIsSilent(RoutesOf(entry).value, provider)))
  }

  ghost predicate RouteStates(routes: seq<Json>, provider: string, n: int) {
    exists k: nat | FirstWith(routes, "provider", provider, k) :: Get(routes[k], "max_output_tokens") == Some(JInt(n))
  }

  ghost predicate RouteIsSilent(routes: seq<Json>, provider: string) {
    forall k: nat | FirstWith(routes, "provider", provider, k) ::
      Get(routes[k], "max_output_tokens") in [None, Some(JNull)]
  }

  function RoutesOf(entry: Json): Option<seq<Json>> {
    match Get(entry, "provider_routes")
    case Some(JArray(routes)) => Some(routes)
    case _ => None
  }

  // ---- The evidence fetch ------------------------------------------------------------------------------

  /** The literal requests of an evidence fetch, in their only order. */
  ghost predicate FetchRequest(w: World, c: Config, model: string, provider: string, nonce: string,
                               h: seq<Request>, i: nat)
    requires i < |h|
  {
    || (i == 0
        && h[i] == Request(c.control, "/v1/inference/attestation-tickets", true, None, MintBody(model, provider)))
    || (i == 1 && Carries(w.server(h[..1]), h[i].ticket)
        && h[i] == Request(c.inference, "/v1/tee/attestation", false, h[i].ticket, NonceBody(nonce)))
    || (i == |h| - 1 && c.control == c.inference
        && h[i] == Request(c.inference, "/v1/tee/attestation", true, None, Query(model, provider, nonce)))
  }

  /** Whether the key-authenticated request ends the fetch. */
  predicate UsesKey(h: seq<Request>) { h != [] && h[|h| - 1].body.Query? }

  /** An evidence fetch sends a prefix of one list of literal requests: ticket, redemption, key path. */
  lemma FetchSendsExactly(w: World, c: Config, model: string, provider: string, nonce: string, i: nat)
    requires i < |FetchHistory(w, c, model, provider, nonce, [])|
    ensures FetchRequest(w, c, model, provider, nonce, FetchHistory(w, c, model, provider, nonce, []), i)
  {
    var h := FetchHistory(w, c, model, provider, nonce, []);
    Prefixes(h);
  }

  /**
   * The key path is taken exactly on a single origin, after a redemption answered 401 or 404, or without a
   * ticket when the mint answered well or the caller did not cancel.
   */
  lemma KeyPathExactly(w: World, c: Config, model: string, provider: string, nonce: string)
    ensures w.stops(0) && c.control == c.inference && !w.stops(1) ==>
      FetchHistory(w, c, model, provider, nonce, [])
        == [Request(c.inference, "/v1/tee/attestation", true, None, Query(model, provider, nonce))]
    ensures w.stops(0) && (c.control != c.inference || w.stops(1)) ==>
      FetchHistory(w, c, model, provider, nonce, []) == []
    ensures var h := FetchHistory(w, c, model, provider, nonce, []);
      !w.stops(0) ==> h != []
    ensures var h := FetchHistory(w, c, model, provider, nonce, []);
      h != [] && !w.stops(0) ==>
        (var minted := w.server(h[..1]);
         && (UsesKey(h) <==> (
               && c.control == c.inference
               && if |h| >= 2 && h[1].body.NonceBody?
                  then w.server(h[..2]).Response? && w.server(h[..2]).status in [401, 404]
                  else (minted.Response? && 200 <= minted.status <= 299 && minted.json.Some?) || !w.stops(1)))
         && (|h| >= 2 && h[1].body.NonceBody? <==> exists ticket :: Carries(minted, ticket)))
  {
    var h := FetchHistory(w, c, model, provider, nonce, []);
    Prefixes(h);
    if h != [] {
      var ticket := Issued(w.server(h[..1]));
      assert ticket.Some? ==> Carries(w.server(h[..1]), ticket);
    }
  }

  // ---- The messages a chat may hold ----------------------------------------------------------------

  function AllText(messages: seq<Message>): string {
    if messages == [] then ""
    else
      var last := messages[|messages| - 1];
      AllText(messages[..|messages| - 1]) + (if last.content.Some? then last.content.value else "")
  }

  /**
   * A chat's messages are valid exactly when each has a known role and 1 to 131072 UTF-16 units, all texts
   * together have at most 262144, and a user speaks.
   */
  lemma MessagesExactly(messages: seq<Message>)
    ensures MessagesOk(messages) <==>
      && (forall m | m in messages :: m.role in ["user", "system", "assistant"] && m.content.Some?
                                      && 1 <= Utf16.Length(m.content.value) <= 131072)
      && Utf16.Length(AllText(messages)) <= 262144
      && exists m | m in messages :: m.role == "user"
  {
    TotalIsLength(messages);
    UsersAreCounted(messages);
    hide TotalChars, UserCount, AllText, Utf16.Length;
    assert forall k | 0 <= k < |messages| :: messages[k] in messages;
  }

  lemma {:induction false} TotalIsLength(messages: seq<Message>)
    ensures TotalChars(messages) == Utf16.Length(AllText(messages))
  {
    if messages != [] {
      var init, last := messages[..|messages| - 1], messages[|messages| - 1];
      TotalIsLength(init);
      Utf16.LengthIsAdditive(AllText(init), if last.content.Some? then last.content.value else "");
      hide Utf16.Length;
      assert Utf16.Length("") == 0 by { NoText(); }
    } else {
      NoText();
    }
  }

  lemma NoText()
    ensures Utf16.Length("") == 0
  {}

  lemma {:induction false} UsersAreCounted(messages: seq<Message>)
    ensures UserCount(messages) > 0 <==> exists m | m in messages :: m.role == "user"
  {
    if messages != [] {
      var init, last := messages[..|messages| - 1], messages[|messages| - 1];
      UsersAreCounted(init);
      assert messages == init + [last];
      assert forall m :: m in messages <==> m in init || m == last;
    }
  }
}
