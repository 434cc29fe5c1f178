/** Bot API requests for one recipient, reading of Bot API replies, and the sending bot
    (services/broadcasts/telegram.py). */
module Telegram {
  import opened Prelude
  import opened BroadcastModels

  const NETWORK_RETRY_AFTER := 2.0
  const FOLLOW_UP_ATTEMPTS := 3

  datatype Markup = WebAppButton(text: string, url: string) | UrlButton(text: string, url: string)

  datatype AlbumItem = AlbumItem(kind: MediaType, fileId: string, caption: Option<string>, streaming: bool)

  datatype Request =
    | SendMessage(chat: int, silent: bool, text: string, markup: Option<Markup>)
    | SendMediaGroup(chat: int, silent: bool, items: seq<AlbumItem>)
    | SendMedia(chat: int, silent: bool, kind: MediaType, fileId: string, caption: Option<string>,
                markup: Option<Markup>, streaming: bool)
    | PinMessage(chat: int, messageId: int)

  /** The button opens a web app if and only if it is of the kind "miniapp". */
  function ReplyMarkup(message: BroadcastMessage): (markup: Option<Markup>)
    ensures markup.None? <==> message.button.None?
    ensures markup.Some? ==> markup.value.text == message.button.value.text && markup.value.url == message.button.value.url
    ensures markup.Some? ==> (markup.value.WebAppButton? <==> message.button.value.kind == "miniapp")
  {
    match message.button
    case None => None
    case Some(b) => Some(if b.kind == "miniapp" then WebAppButton(b.text, b.url) else UrlButton(b.text, b.url))
  }

  // ---------------------------------------------------------------- request construction

  /** Item `i` of an album: only the first one may carry the caption. */
  function ItemFor(message: BroadcastMessage, i: nat): AlbumItem
    requires i < |message.media|
  {
    var media := message.media[i];
    AlbumItem(media.kind, media.fileId,
              if i == 0 && message.text != "" && !message.TextWithButton() then Some(message.text) else None,
              media.kind == Video)
  }

  function AlbumItems(message: BroadcastMessage): seq<AlbumItem> {
    seq(|message.media|, i requires 0 <= i < |message.media| => ItemFor(message, i))
  }

  function Requests(chat: int, message: BroadcastMessage): (requests: seq<Request>)
    ensures requests != [] && forall i | 0 <= i < |requests| :: requests[i].chat == chat
  {
    var text := SendMessage(chat, message.disableNotification, message.text, ReplyMarkup(message));
    if message.media == [] then [text]
    else if message.IsAlbum() then
      [SendMediaGroup(chat, message.disableNotification, AlbumItems(message))]
      + (if message.TextWithButton() then [text] else [])
    else
      var media := message.media[0];
      [SendMedia(chat, message.disableNotification, media.kind, media.fileId,
                 if message.text != "" then Some(message.text) else None,
                 ReplyMarkup(message), media.kind == Video)]
  }

  method AlbumPayload(chat: int, message: BroadcastMessage) returns (payload: Request)
    ensures payload == SendMediaGroup(chat, message.disableNotification, AlbumItems(message))
  {
    var items: seq<AlbumItem> := [];
    for i := 0 to |message.media|
      invariant items == AlbumItems(message)[..i]
    {
      var media := message.media[i];
      var item := AlbumItem(media.kind, media.fileId, None, false);
      if i == 0 && message.text != "" && !message.TextWithButton() {
        item := item.(caption := Some(message.text));
      }
      if media.kind == Video {
        item := item.(streaming := true);
      }
      items := items + [item];
    }
    payload := SendMediaGroup(chat, message.disableNotification, items);
  }

  predicate IsSilent(request: Request) {
    match request
    case SendMessage(_, silent, _, _) => silent
    case SendMediaGroup(_, silent, _) => silent
    case SendMedia(_, silent, _, _, _, _, _) => silent
    case PinMessage(_, _) => true
  }

  /** Every request notifies the chat unless the broadcast is silent; videos, and only they, are sent for streaming;
      and only the first item of an album may carry a caption. */
  method BuildRequests(chat: int, message: BroadcastMessage) returns (requests: seq<Request>)
    ensures requests == Requests(chat, message)
    ensures forall i | 0 <= i < |requests| ::
              && IsSilent(requests[i]) == message.disableNotification && !requests[i].PinMessage?
              && (requests[i].SendMedia? ==> (requests[i].streaming <==> requests[i].kind == Video))
    ensures forall i, k | 0 <= i < |requests| && requests[i].SendMediaGroup? && 0 <= k < |requests[i].items| ::
              && (requests[i].items[k].streaming <==> requests[i].items[k].kind == Video)
              && (requests[i].items[k].caption.Some? ==> k == 0)
  {
    var text := SendMessage(chat, message.disableNotification, message.text, ReplyMarkup(message));
    if message.media == [] {
      return [text];
    }
    if message.IsAlbum() {
      var album := AlbumPayload(chat, message);
      requests := [album];
      if message.TextWithButton() {
        requests := requests + [text];
      }
      return;
    }
    var media := message.media[0];
    var payload := SendMedia(chat, message.disableNotification, media.kind, media.fileId, None,
                             ReplyMarkup(message), false);
    if message.text != "" {
      payload := payload.(caption := Some(message.text));
    }
    if media.kind == Video {
      payload := payload.(streaming := true);
    }
    requests := [payload];
  }

  // ---------------------------------------------------------------- what the recipient receives

  /** Everything a person sees, in order of arrival. */
  datatype Content = Content(messages: nat, texts: seq<string>, media: seq<(MediaType, string)>, buttons: seq<Markup>)

  function Joined(a: Content, b: Content): Content {
    Content(a.messages + b.messages, a.texts + b.texts, a.media + b.media, a.buttons + b.buttons)
  }

  const NOTHING := Content(0, [], [], [])

  function Shown(text: string): seq<string> {
    if text == "" then [] else [text]
  }

  function OptSeq<T>(o: Option<T>): seq<T> {
    if o.Some? then [o.value] else []
  }

  function CaptionText(caption: Option<string>): seq<string> {
    if caption.Some? then Shown(caption.value) else []
  }

  function ItemsContent(items: seq<AlbumItem>): Content {
    if items == [] then NOTHING else
      Joined(ItemsContent(items[..|items| - 1]),
             var last := items[|items| - 1];
             Content(1, CaptionText(last.caption), [(last.kind, last.fileId)], []))
  }

  function RequestContent(request: Request): Content {
    match request
    case SendMessage(_, _, text, markup) => Content(1, Shown(text), [], OptSeq(markup))
    case SendMediaGroup(_, _, items) => ItemsContent(items)
    case SendMedia(_, _, kind, fileId, caption, markup, _) =>
      Content(1, CaptionText(caption), [(kind, fileId)], OptSeq(markup))
    case PinMessage(_, _) => NOTHING
  }

  function Received(requests: seq<Request>): Content {
    if requests == [] then NOTHING
    else Joined(Received(requests[..|requests| - 1]), RequestContent(requests[|requests| - 1]))
  }

  function MediaPairs(media: seq<Media>): seq<(MediaType, string)> {
    seq(|media|, i requires 0 <= i < |media| => (media[i].kind, media[i].fileId))
  }

  lemma {:induction false} AlbumContent(message: BroadcastMessage, n: nat)
    requires n <= |message.media|
    ensures var c := ItemsContent(AlbumItems(message)[..n]);
            && c.messages == n && c.media == MediaPairs(message.media)[..n] && c.buttons == []
            && c.texts == (if n > 0 && !message.TextWithButton() then Shown(message.text) else [])
  {
    if n > 0 {
      AlbumContent(message, n - 1);
      var items := AlbumItems(message);
      assert items[..n][..n - 1] == items[..n - 1];
      assert items[..n][n - 1] == ItemFor(message, n - 1);
      assert MediaPairs(message.media)[..n] == MediaPairs(message.media)[..n - 1] + [MediaPairs(message.media)[n - 1]];
    }
  }

  lemma ReceivedOne(r: Request)
    ensures Received([r]) == RequestContent(r)
  {
    assert [r][..0] == [] && Received([]) == NOTHING;
  }

  lemma ReceivedTwo(a: Request, b: Request)
    ensures Received([a, b]) == Joined(RequestContent(a), RequestContent(b))
  {
    assert [a, b][..1] == [a];
    ReceivedOne(a);
  }

  /** One recipient gets exactly `cost` messages, every file once and in order, the text exactly once
      (never when it is empty) and the button exactly once if there is one. */
  lemma EverythingArrivesOnce(chat: int, message: BroadcastMessage)
    ensures Received(Requests(chat, message))
         == Content(message.Cost(), Shown(message.text), MediaPairs(message.media), OptSeq(ReplyMarkup(message)))
  {
    var text := SendMessage(chat, message.disableNotification, message.text, ReplyMarkup(message));
    var album := SendMediaGroup(chat, message.disableNotification, AlbumItems(message));
    if message.media == [] {
      ReceivedOne(text);
    } else if message.IsAlbum() {
      AlbumContent(message, |message.media|);
      assert AlbumItems(message)[..|message.media|] == AlbumItems(message);
      assert MediaPairs(message.media)[..|message.media|] == MediaPairs(message.media);
      if message.TextWithButton() {
        assert Requests(chat, message) == [album, text];
        ReceivedTwo(album, text);
      } else {
        assert Requests(chat, message) == [album];
        ReceivedOne(album);
      }
    } else {
      ReceivedOne(Requests(chat, message)[0]);
    }
  }

  // ---------------------------------------------------------------- replies

  /** A Bot API body: `errorCode` 0 and `retryAfter` 0.0 stand for an absent field;
      `chatNotFound` tells whether the description contains that phrase in any letter case. */
  datatype ApiBody = ApiBody(ok: bool, messageId: Option<int>, errorCode: int, chatNotFound: bool, retryAfter: real)

  datatype Reply = NetworkError | Answer(statusCode: int, body: Option<ApiBody>)

  function Refused(status: DeliveryStatus): SendResult {
    SendResult(status, None, None, false, false)
  }

  /** What an answer means: without a body, or when it is not ok, the message was refused. The code in the body
      goes before that of the response: 401 is a refused token, 403 or an unknown chat a recipient who blocked the
      bot, and 429 asks for a retry after the given delay, or after one second if none is given. */
  function ParseResponse(statusCode: int, body: Option<ApiBody>): (r: SendResult)
    ensures Coherent(r) && !r.networkError
    ensures r.Ok() <==> body.Some? && body.value.ok
    ensures r.messageId == if r.Ok() then body.value.messageId else None
    ensures body.None? ==> r.status == DeliveryStatus.Failed && r.retryAfter.None? && !r.unauthorized
    ensures body.Some? && !body.value.ok ==>
              var code := if body.value.errorCode == 0 then statusCode else body.value.errorCode;
              && (r.unauthorized <==> code == 401)
              && (r.retryAfter.Some? <==> code == 429)
              && (code == 429 ==>
                    r.retryAfter.value == if body.value.retryAfter == 0.0 then 1.0 else body.value.retryAfter)
              && (r.status == Blocked <==> code == 403 || (body.value.chatNotFound && code != 401 && code != 429))
  {
    if body.None? then Refused(DeliveryStatus.Failed)
    else if body.value.ok then SendResult(Sent, body.value.messageId, None, false, false)
    else
      var code := if body.value.errorCode != 0 then body.value.errorCode else statusCode;
      if code == 429 then
        Refused(DeliveryStatus.Failed).(retryAfter :=
          Some(if body.value.retryAfter != 0.0 then body.value.retryAfter else 1.0))
      else if code == 401 then Refused(DeliveryStatus.Failed).(unauthorized := true)
      else if code == 403 || body.value.chatNotFound then Refused(Blocked)
      else Refused(DeliveryStatus.Failed)
  }

  /** What the bot makes of one reply; a broken connection is tried again like a 429, after two seconds. */
  function ResultOf(reply: Reply): (r: SendResult)
    ensures Coherent(r)
    ensures reply.NetworkError? ==> r == SendResult(DeliveryStatus.Failed, None, Some(2.0), false, true)
    ensures r.Ok() <==> reply.Answer? && reply.body.Some? && reply.body.value.ok
  {
    match reply
    case NetworkError =>
      Refused(DeliveryStatus.Failed).(retryAfter := Some(NETWORK_RETRY_AFTER), networkError := true)
    case Answer(code, body) => ParseResponse(code, body)
  }

  /** An accepted message asks for nothing more, and a refused token is never worth a retry. */
  predicate Coherent(r: SendResult) {
    && (r.retryAfter.Some? || r.unauthorized ==> r.status == DeliveryStatus.Failed)
    && !(r.retryAfter.Some? && r.unauthorized)
  }

  /** One request, and what the bot made of the reply to it. */
  datatype Call = Call(request: Request, result: SendResult)
  {
    predicate Accepted() {
      result.Ok()
    }
  }

  /** Every call of the log has the result that its own reply means. */
  ghost predicate Truthful(replies: nat -> Reply, log: seq<Call>) {
    log != [] ==>
      var n := |log| - 1;
      Truthful(replies, log[..n]) && log[n].result == ResultOf(replies(n))
  }

  lemma TruthfulSnoc(replies: nat -> Reply, log: seq<Call>, call: Call)
    requires Truthful(replies, log) && call.result == ResultOf(replies(|log|))
    ensures Truthful(replies, log + [call])
  {
    assert (log + [call])[..|log|] == log;
  }

  lemma {:induction false} TruthfulAt(replies: nat -> Reply, log: seq<Call>, k: nat)
    requires Truthful(replies, log) && k < |log|
    ensures log[k].result == ResultOf(replies(k))
  {
    if k < |log| - 1 {
      TruthfulAt(replies, log[..|log| - 1], k);
    }
  }

  const NO_TOKEN := SendResult(DeliveryStatus.Failed, None, None, true, false)

  class TelegramBot {
    const configured: bool
    const replies: nat -> Reply
    var calls: nat
    ghost var log: seq<Call>

    /** The log holds every request made, each with what its own reply means. */
    ghost predicate Valid()
      reads this
    {
      |log| == calls && (!configured ==> log == []) && Truthful(replies, log)
    }

    constructor (configured: bool, replies: nat -> Reply)
      ensures Valid() && this.configured == configured && this.replies == replies && log == []
    {
      this.configured := configured;
      this.replies := replies;
      calls := 0;
      log := [];
    }

    method CallApi(request: Request) returns (r: SendResult)
      requires Valid()
      modifies this
      ensures Valid() && Coherent(r)
      ensures if configured then log == old(log) + [Call(request, r)] else log == [] && r == NO_TOKEN
    {
      if !configured {
        return Refused(DeliveryStatus.Failed).(unauthorized := true);
      }
      var reply := replies(calls);
      calls := calls + 1;
      match reply {
        case NetworkError =>
          r := Refused(DeliveryStatus.Failed).(retryAfter := Some(NETWORK_RETRY_AFTER), networkError := true);
        case Answer(code, body) =>
          r := ParseResponse(code, body);
      }
      TruthfulSnoc(replies, log, Call(request, r));
      log := log + [Call(request, r)];
    }

    /** Sends the first request, and once it is accepted only the follow-up text is still tried. */
    method Send(chat: int, message: BroadcastMessage) returns (r: SendResult)
      requires Valid()
      modifies this
      ensures Valid() && old(log) <= log && Coherent(r)
      ensures SendTrace(Requests(chat, message), configured, log[|old(log)|..], r)
    {
      var requests := BuildRequests(chat, message);
      r := CallApi(requests[0]);
      if !r.Ok() {
        return;
      }
      ghost var album := log;
      assert album[|old(log)|..] == [Call(requests[0], r)];
      if |requests| > 1 {
        SendFollowUp(requests[1]);
        assert log[|old(log)|..] == [Call(requests[0], r)] + log[|album|..];
      }
    }

    method SendFollowUp(request: Request)
      requires Valid() && configured
      modifies this
      ensures Valid() && old(log) <= log
      ensures TriesOf(request, 3, log[|old(log)|..])
    {
      var attempt := 0;
      ghost var tries: seq<Call> := [];
      while attempt < FOLLOW_UP_ATTEMPTS
        invariant Valid() && 0 <= attempt == |tries| <= FOLLOW_UP_ATTEMPTS
        invariant log == old(log) + tries && log[|old(log)|..] == tries
        invariant AllPutOff(request, tries) && (attempt == FOLLOW_UP_ATTEMPTS ==> TriesOf(request, 3, tries))
      {
        var follow := CallApi(request);
        attempt := attempt + 1;
        OneMorePutOff(request, tries, Call(request, follow));
        tries := tries + [Call(request, follow)];
        assert log[|old(log)|..] == tries;
        if follow.Ok() || follow.retryAfter.None? {
          return;
        }
      }
    }
  }

  /** Tries of one request that were all refused with a delay. */
  ghost predicate AllPutOff(request: Request, calls: seq<Call>) {
    calls != [] ==>
      var last := calls[|calls| - 1];
      && AllPutOff(request, calls[..|calls| - 1])
      && last.request == request && !last.Accepted() && last.result.retryAfter.Some?
  }

  lemma {:induction false} PutOffMeans(request: Request, calls: seq<Call>)
    requires AllPutOff(request, calls)
    ensures forall i | 0 <= i < |calls| ::
              calls[i].request == request && !calls[i].Accepted() && calls[i].result.retryAfter.Some?
  {
    if calls != [] {
      PutOffMeans(request, calls[..|calls| - 1]);
    }
  }

  lemma OneMorePutOff(request: Request, calls: seq<Call>, call: Call)
    requires AllPutOff(request, calls)
    ensures (calls + [call])[..|calls|] == calls
    ensures AllPutOff(request, calls + [call]) <==>
              call.request == request && !call.Accepted() && call.result.retryAfter.Some?
  {
    assert (calls + [call])[..|calls|] == calls;
  }

  /** At least one try of one request and at most `limit`: every one but the last was refused with a delay, and
      fewer than `limit` end with a result that asks for no retry. */
  ghost predicate TriesOf(request: Request, limit: int, calls: seq<Call>) {
    && 1 <= |calls| <= limit
    && AllPutOff(request, calls[..|calls| - 1])
    && calls[|calls| - 1].request == request
    && (|calls| < limit ==> calls[|calls| - 1].result.retryAfter.None?)
  }

  lemma TriesMean(request: Request, limit: int, calls: seq<Call>)
    requires TriesOf(request, limit, calls)
    ensures forall i | 0 <= i < |calls| :: calls[i].request == request
    ensures forall i | 0 <= i < |calls| - 1 :: !calls[i].Accepted() && calls[i].result.retryAfter.Some?
  {
    PutOffMeans(request, calls[..|calls| - 1]);
    assert forall i | 0 <= i < |calls| - 1 :: calls[i] == calls[..|calls| - 1][i];
  }

  /** The follow-up is tried if and only if there is one and the first message was accepted. */
  ghost predicate FollowedUp(requests: seq<Request>, r: SendResult, calls: seq<Call>) {
    if r.Ok() && |requests| > 1 then TriesOf(requests[1], 3, calls) else calls == []
  }

  /** One try of the first request and, after it was accepted, those of the second. */
  ghost predicate SendTrace(requests: seq<Request>, configured: bool, calls: seq<Call>, r: SendResult)
    requires requests != []
  {
    if !configured then calls == [] && r == NO_TOKEN
    else calls != [] && calls[0] == Call(requests[0], r) && FollowedUp(requests, r, calls[1..])
  }

  /** The try of the first request and those of the second, of which only a token makes any. */
  lemma TryParts(requests: seq<Request>, configured: bool, before: seq<Call>, log: seq<Call>, r: SendResult)
    returns (try: seq<Call>, followUps: seq<Call>)
    requires requests != [] && before <= log && SendTrace(requests, configured, log[|before|..], r)
    ensures log == before + try + followUps && FollowedUp(requests, r, followUps)
    ensures try == if configured then [Call(requests[0], r)] else []
    ensures !configured ==> r == NO_TOKEN
  {
    var calls := log[|before|..];
    assert log == before + calls;
    if configured {
      try, followUps := [calls[0]], calls[1..];
      assert calls == try + followUps;
    } else {
      try, followUps := [], [];
    }
  }
}
