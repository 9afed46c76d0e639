/**
 * The HTTP endpoints of the bot (app/api/webhooks.py): the Telegram update
 * webhook and the notification webhook, by POST and by GET. Each checks a
 * shared secret, the notifications also check the sender, and the accepted
 * notification is delivered to the owner as a message or, when long, as a
 * document. What the bot sends is recorded as deliveries; the configured
 * secrets and allowed list, the clock, `json.dumps` and Python's `str` of a
 * list or dict are parameters.
 */
module Webhooks {
  import opened Wrappers
  import opened Json
  import opened Formatting
  import opened Civil

  /** The request headers, as litestar hands them over with lower-cased names. */
  const TELEGRAM_HEADER: string := "x-telegram-bot-api-secret-token"
  const NOTIFICATIONS_HEADER: string := "x-mybot-notifications-secret-token"

  /** The longest notification delivered inline. */
  const INLINE_LIMIT: nat := 4000

  /**
   * How a request ends: refused with an HTTP error, failed with an exception
   * (which the framework answers with a server error), or answered.
   */
  datatype Response<T> = Refused(status: int, detail: string) | Failed | Answered(body: T)

  /** What the bot sends to the owner's chat. */
  datatype Delivery =
    | Message(spans: seq<Span>)
    | Document(fileName: string, content: string, caption: seq<Span>)

  /** `headers.get(name, "")`. */
  function HeaderValue(headers: map<string, string>, name: string): string {
    if name in headers then headers[name] else ""
  }

  /** A secret passes when it equals the configured value (`!=` of a `str` and the secret). */
  predicate Verified(given: string, secret: Json) {
    PyEq(JStr(given), secret)
  }

  /** `webhook_telegram`: a matching secret feeds the update, whose result (`feed`) is returned. */
  function TelegramWebhook<U>(headers: map<string, string>, telegramSecret: Json, feed: U): (r: Response<U>)
    ensures r.Answered? <==> Verified(HeaderValue(headers, TELEGRAM_HEADER), telegramSecret)
    ensures r.Answered? ==> r.body == feed
    ensures !r.Answered? ==> r == Refused(401, "NOT VERIFIED")
  {
    if !Verified(HeaderValue(headers, TELEGRAM_HEADER), telegramSecret) then Refused(401, "NOT VERIFIED")
    else Answered(feed)
  }

  /** `f"{v}"`: the text of a scalar, and `show(v)` for a list or dict. */
  function Shown(v: Json, show: Json -> string): string {
    if StrOf(v).Some? then StrOf(v).value else show(v)
  }

  /** `Text(Bold(f"{sender}:"), "\n", message)`. */
  function Caption(sender: string, message: string): (spans: seq<Span>)
    ensures RenderedText(spans) == sender + ":\n" + message
  {
    RenderedTextOfFew(Span(Bold, sender + ":"), PlainSpan("\n"), PlainSpan(message));
    [Span(Bold, sender + ":"), PlainSpan("\n"), PlainSpan(message)]
  }

  /** The name of the document a long notification is sent as. */
  function DocumentName(sender: string, now: nat): string {
    sender + "_" + DateTimeText(now, "-", "_", "-") + ".json"
  }

  /**
   * The delivery of a notification with a truthy payload, once the payload
   * was dumped to `json`; `None` for the TypeError of a sender or message
   * that is not a string.
   */
  function PayloadDelivery(sender: Json, message: Json, json: string, now: nat): (r: Option<Delivery>) {
    if !(sender.JStr? && message.JStr?) then None
    else if |sender.s + message.s + json| > INLINE_LIMIT then
      Some(Document(DocumentName(sender.s, now), json, Caption(sender.s, message.s)))
    else
      Some(Message(Caption(sender.s, message.s) + [PlainSpan("\n"), Span(Pre("json"), json)]))
  }

  /** `webhook_notifications_post`. */
  function NotificationsPost(data: map<string, Json>, headers: map<string, string>, secretPost: Json, allowed: Json,
                             dumps: Json -> string, show: Json -> string, now: nat)
    : (r: Response<(map<string, string>, seq<Delivery>)>)
    ensures !Verified(HeaderValue(headers, NOTIFICATIONS_HEADER), secretPost) ==> r == Refused(401, "NOT VERIFIED")
    ensures r.Answered? ==> r.body.0 == map["description" := "Got"] && |r.body.1| == 1
  {
    if !Verified(HeaderValue(headers, NOTIFICATIONS_HEADER), secretPost) then Refused(401, "NOT VERIFIED")
    else if "sender" !in data then Failed
    else
      match Contains(allowed, data["sender"])
      case None => Failed
      case Some(found) =>
        if !found then Refused(401, "NOT ALLOWED")
        else if "content" !in data then Failed
        else
          var content := data["content"];
          if !(Has(content, "sender") && Has(content, "message")) then Failed
          else
            var sender := At(content, "sender");
            var message := At(content, "message");
            var payload := Get(content.fields, "payload");
            if !Truthy(payload) then
              Answered((map["description" := "Got"], [Message(Caption(Shown(sender, show), Shown(message, show)))]))
            else
              match PayloadDelivery(sender, message, dumps(payload), now)
              case None => Failed
              case Some(d) => Answered((map["description" := "Got"], [d]))
  }

  /** `webhook_notifications_get`, with the query parameters `secret`, `sender` and `message`. */
  function NotificationsGet(secret: string, sender: string, message: string, secretGet: Json, allowed: Json)
    : (r: Response<(string, seq<Delivery>)>)
    ensures !Verified(secret, secretGet) ==> r == Refused(401, "NOT VERIFIED")
    ensures r.Answered? <==> Verified(secret, secretGet) && Contains(allowed, JStr(sender)) == Some(true)
    ensures r.Answered? ==> r.body == ("Notification sended", [Message(Caption(sender, message))])
  {
    if !Verified(secret, secretGet) then Refused(401, "NOT VERIFIED")
    else
      match Contains(allowed, JStr(sender))
      case None => Failed
      case Some(found) =>
        if !found then Refused(401, "NOT ALLOWED")
        else Answered(("Notification sended", [Message(Caption(sender, message))]))
  }

  // ---------------------------------------------------------------------------
  // Properties

  /** The sender check follows the secret check: a verified request from a sender not in the list is refused. */
  lemma PostSenderChecked(data: map<string, Json>, headers: map<string, string>, secretPost: Json, allowed: Json,
                          dumps: Json -> string, show: Json -> string, now: nat)
    requires Verified(HeaderValue(headers, NOTIFICATIONS_HEADER), secretPost)
    requires allowed.JList? && "sender" in data
    requires forall i :: 0 <= i < |allowed.items| ==> !PyEq(allowed.items[i], data["sender"])
    ensures NotificationsPost(data, headers, secretPost, allowed, dumps, show, now) == Refused(401, "NOT ALLOWED")
  {
  }

  /** An accepted POST came with the right secret from a sender in the allowed list. */
  lemma PostAcceptedMeansChecked(data: map<string, Json>, headers: map<string, string>, secretPost: Json, allowed: Json,
                                 dumps: Json -> string, show: Json -> string, now: nat)
    requires NotificationsPost(data, headers, secretPost, allowed, dumps, show, now).Answered?
    ensures Verified(HeaderValue(headers, NOTIFICATIONS_HEADER), secretPost)
    ensures "sender" in data && Contains(allowed, data["sender"]) == Some(true)
  {
  }

  /**
   * What is shown comes from the content alone: two requests that pass both
   * checks and carry the same content are delivered alike, whatever outer
   * sender authenticated them.
   */
  lemma DisplayedSenderIsContent(data: map<string, Json>, headers: map<string, string>, secretPost: Json, allowed: Json,
                                 dumps: Json -> string, show: Json -> string, now: nat, outer: Json)
    requires "sender" in data && Contains(allowed, data["sender"]) == Some(true) && Contains(allowed, outer) == Some(true)
    ensures NotificationsPost(data["sender" := outer], headers, secretPost, allowed, dumps, show, now)
      == NotificationsPost(data, headers, secretPost, allowed, dumps, show, now)
  {
    var data' := data["sender" := outer];
    assert "content" in data' <==> "content" in data;
    if "content" in data {
      assert data'["content"] == data["content"];
    }
  }

  /** The three ways a notification is delivered, by its payload and its length. */
  lemma DeliveryChoice(data: map<string, Json>, headers: map<string, string>, secretPost: Json, allowed: Json,
                       dumps: Json -> string, show: Json -> string, now: nat)
    requires NotificationsPost(data, headers, secretPost, allowed, dumps, show, now).Answered?
    ensures var d := NotificationsPost(data, headers, secretPost, allowed, dumps, show, now).body.1[0];
      var content := data["content"];
      var sender := At(content, "sender");
      var message := At(content, "message");
      var payload := Get(content.fields, "payload");
      && (!Truthy(payload) ==>
            d.Message? && RenderedText(d.spans) == Shown(sender, show) + ":\n" + Shown(message, show))
      && (Truthy(payload) ==> sender.JStr? && message.JStr?)
      && (Truthy(payload) && |sender.s + message.s + dumps(payload)| > INLINE_LIMIT ==>
            d == Document(DocumentName(sender.s, now), dumps(payload), Caption(sender.s, message.s)))
      && (Truthy(payload) && |sender.s + message.s + dumps(payload)| <= INLINE_LIMIT ==>
            d.Message? && d.spans[|d.spans| - 1] == Span(Pre("json"), dumps(payload))
            && RenderedText(d.spans) == sender.s + ":\n" + message.s + "\n" + dumps(payload))
  {
    var content := data["content"];
    var sender := At(content, "sender");
    var message := At(content, "message");
    var payload := Get(content.fields, "payload");
    if Truthy(payload) && sender.JStr? && message.JStr? && |sender.s + message.s + dumps(payload)| <= INLINE_LIMIT {
      var tail := [PlainSpan("\n"), Span(Pre("json"), dumps(payload))];
      RenderedTextConcat(Caption(sender.s, message.s), tail);
      RenderedTextOfFew(PlainSpan("\n"), Span(Pre("json"), dumps(payload)), PlainSpan(""));
    }
  }

  /** A refusal by the GET endpoint tells a wrong secret from a sender not in the list. */
  lemma GetRefusals(secret: string, sender: string, message: string, secretGet: Json, allowed: Json)
    requires Verified(secret, secretGet) && allowed.JList?
    ensures var r := NotificationsGet(secret, sender, message, secretGet, allowed);
      r.Refused? <==> r == Refused(401, "NOT ALLOWED")
    ensures NotificationsGet(secret, sender, message, secretGet, allowed).Refused? <==>
      forall i :: 0 <= i < |allowed.items| ==> !PyEq(allowed.items[i], JStr(sender))
  {
  }
}
