/** What a sending session puts on the wire: for every recipient some refused tries of the first request,
    at most one accepted one, and what follows it (services/broadcasts/runner.py, services/broadcasts/telegram.py). */
module DeliveryLog {
  import opened Prelude
  import opened BroadcastModels
  import opened Telegram

  /** What a runner sends, how often it tries, and whether its bot has a token. */
  datatype Mailing = Mailing(message: BroadcastMessage, maxAttempts: int, configured: bool)
  {
    function To(tgId: int): (requests: seq<Request>)
      ensures requests == Requests(tgId, message) && 1 <= |requests| <= 2
      ensures requests[0].chat == tgId && !requests[0].PinMessage?
      ensures |requests| == 2 ==> requests[1].chat == tgId && !requests[1].PinMessage? && requests[0] != requests[1]
    {
      Requests(tgId, message)
    }
  }

  // ---------------------------------------------------------------- what was accepted

  function TimesAccepted(calls: seq<Call>, request: Request): nat {
    if calls == [] then 0
    else TimesAccepted(calls[1..], request) + (if calls[0].request == request && calls[0].Accepted() then 1 else 0)
  }

  lemma {:induction false} TimesAcceptedInTwo(a: seq<Call>, b: seq<Call>, request: Request)
    ensures TimesAccepted(a + b, request) == TimesAccepted(a, request) + TimesAccepted(b, request)
  {
    if a == [] {
      assert a + b == b;
    } else {
      TimesAcceptedInTwo(a[1..], b, request);
      assert (a + b)[1..] == a[1..] + b;
    }
  }

  lemma Associates<T>(x: seq<T>, y: seq<T>, z: seq<T>)
    ensures x + (y + z) == (x + y) + z
  {
  }

  /** The accepted requests, in order. */
  function AcceptedOf(calls: seq<Call>): seq<Request> {
    if calls == [] then [] else IfAccepted(calls[0]) + AcceptedOf(calls[1..])
  }

  function IfAccepted(call: Call): seq<Request> {
    if call.Accepted() then [call.request] else []
  }

  lemma {:induction false} AcceptedInTwo(a: seq<Call>, b: seq<Call>)
    ensures AcceptedOf(a + b) == AcceptedOf(a) + AcceptedOf(b)
  {
    if a == [] {
      assert a + b == b;
    } else {
      AcceptedInTwo(a[1..], b);
      assert (a + b)[1..] == a[1..] + b;
      Associates(IfAccepted(a[0]), AcceptedOf(a[1..]), AcceptedOf(b));
    }
  }

  /** Tries of one request of which only the last may have been accepted. */
  lemma {:induction false} OnlyLastAccepted(calls: seq<Call>, request: Request)
    requires forall i | 0 <= i < |calls| :: calls[i].request == request
    requires forall i | 0 <= i < |calls| - 1 :: !calls[i].Accepted()
    ensures AcceptedOf(calls) == if calls != [] && calls[|calls| - 1].Accepted() then [request] else []
  {
    if calls != [] {
      OnlyLastAccepted(calls[1..], request);
    }
  }

  lemma {:induction false} TimesIsCount(calls: seq<Call>, request: Request)
    ensures TimesAccepted(calls, request) == multiset(AcceptedOf(calls))[request]
  {
    if calls != [] {
      TimesIsCount(calls[1..], request);
    }
  }

  // ---------------------------------------------------------------- the calls to one recipient

  function CallsTo(calls: seq<Call>, chat: int): seq<Call> {
    if calls == [] then [] else IfTo(calls[0], chat) + CallsTo(calls[1..], chat)
  }

  function IfTo(call: Call, chat: int): seq<Call> {
    if call.request.chat == chat then [call] else []
  }

  lemma {:induction false} CallsToInTwo(a: seq<Call>, b: seq<Call>, chat: int)
    ensures CallsTo(a + b, chat) == CallsTo(a, chat) + CallsTo(b, chat)
  {
    if a == [] {
      assert a + b == b;
    } else {
      CallsToInTwo(a[1..], b, chat);
      assert (a + b)[1..] == a[1..] + b;
      Associates(IfTo(a[0], chat), CallsTo(a[1..], chat), CallsTo(b, chat));
    }
  }

  lemma {:induction false} CallsToOne(calls: seq<Call>, tgId: int, chat: int)
    requires forall i | 0 <= i < |calls| :: calls[i].request.chat == tgId
    ensures CallsTo(calls, chat) == if chat == tgId then calls else []
  {
    if calls != [] {
      CallsToOne(calls[1..], tgId, chat);
    }
  }

  lemma {:induction false} TimesAcceptedTo(calls: seq<Call>, request: Request)
    ensures TimesAccepted(calls, request) == TimesAccepted(CallsTo(calls, request.chat), request)
  {
    if calls != [] {
      TimesAcceptedTo(calls[1..], request);
      TimesAcceptedInTwo(IfTo(calls[0], request.chat), CallsTo(calls[1..], request.chat), request);
    }
  }

  /** What a person has received. */
  function Arrived(calls: seq<Call>, chat: int): Content {
    Received(AcceptedOf(CallsTo(calls, chat)))
  }

  // ---------------------------------------------------------------- one delivery

  /** The tries of the first request: at most `maxAttempts`, each but the last refused with a delay; fewer end with
      a result that asks for no retry. */
  ghost predicate FirstTries(m: Mailing, first: Request, result: SendResult, tries: seq<Call>) {
    if m.maxAttempts <= 0 then tries == [] && result == Refused(DeliveryStatus.Failed)
    else if !m.configured then tries == [] && result == NO_TOKEN
    else TriesOf(first, m.maxAttempts, tries) && result == tries[|tries| - 1].result
  }

  /** One pin if and only if the message was accepted, is to be pinned and has an id. */
  ghost predicate Pins(m: Mailing, tgId: int, result: SendResult, pin: seq<Call>) {
    if result.Ok() && m.message.pin && result.messageId.Some?
    then |pin| == 1 && pin[0].request == PinMessage(tgId, result.messageId.value)
    else pin == []
  }

  /** The calls of one `_deliver` that returned `result`. */
  ghost predicate Delivery(m: Mailing, tgId: int, result: SendResult,
                           tries: seq<Call>, followUps: seq<Call>, pin: seq<Call>) {
    && Coherent(result) && FirstTries(m, m.To(tgId)[0], result, tries)
    && FollowedUp(m.To(tgId), result, followUps)
    && Pins(m, tgId, result, pin)
  }

  ghost predicate OnWire(m: Mailing, tgId: int, result: SendResult, calls: seq<Call>) {
    exists tries, followUps, pin ::
      calls == tries + followUps + pin && Delivery(m, tgId, result, tries, followUps, pin)
  }

  lemma DeliveryIsOnWire(m: Mailing, tgId: int, result: SendResult, before: seq<Call>,
                         tries: seq<Call>, followUps: seq<Call>, pin: seq<Call>, log: seq<Call>)
    requires Coherent(result) && FirstTries(m, m.To(tgId)[0], result, tries) && FollowedUp(m.To(tgId), result, followUps)
    requires Pins(m, tgId, result, pin) && log == before + tries + followUps + pin
    ensures OnWire(m, tgId, result, log[|before|..])
  {
    assert log[|before|..] == tries + followUps + pin;
    assert Delivery(m, tgId, result, tries, followUps, pin);
  }

  /** In the middle of the retry loop: every try so far asked for a retry. */
  ghost predicate Retrying(m: Mailing, first: Request, result: SendResult, tries: seq<Call>) {
    && AllPutOff(first, tries) && (tries != [] ==> m.configured && |tries| < m.maxAttempts)
    && result == if tries == [] then Refused(DeliveryStatus.Failed) else tries[|tries| - 1].result
  }

  lemma OneMoreTry(m: Mailing, first: Request, earlier: SendResult, tries: seq<Call>, result: SendResult, try: seq<Call>)
    requires Retrying(m, first, earlier, tries) && |tries| < m.maxAttempts && Coherent(result)
    requires if m.configured then try == [Call(first, result)] else try == [] && result == NO_TOKEN
    ensures if result.retryAfter.None? || |tries| + 1 == m.maxAttempts then FirstTries(m, first, result, tries + try)
            else Retrying(m, first, result, tries + try) && |tries + try| == |tries| + 1 && !result.Ok()
  {
    OneMorePutOff(first, tries, Call(first, result));
  }

  lemma PartsOf(m: Mailing, tgId: int, result: SendResult, calls: seq<Call>)
    returns (tries: seq<Call>, followUps: seq<Call>, pin: seq<Call>)
    requires OnWire(m, tgId, result, calls)
    ensures calls == tries + followUps + pin && Delivery(m, tgId, result, tries, followUps, pin)
  {
    tries, followUps, pin :|
      calls == tries + followUps + pin && Delivery(m, tgId, result, tries, followUps, pin);
  }

  lemma DeliveryRequests(m: Mailing, tgId: int, result: SendResult,
                         tries: seq<Call>, followUps: seq<Call>, pin: seq<Call>)
    requires Delivery(m, tgId, result, tries, followUps, pin)
    ensures var requests := m.To(tgId);
            && (forall i | 0 <= i < |tries| :: tries[i].request == requests[0])
            && (forall i | 0 <= i < |tries| - 1 :: !tries[i].Accepted())
            && (forall i | 0 <= i < |followUps| :: followUps[i].request == requests[|requests| - 1] != requests[0])
            && (forall i | 0 <= i < |followUps| - 1 :: !followUps[i].Accepted())
  {
    var requests := m.To(tgId);
    if tries != [] {
      TriesMean(requests[0], m.maxAttempts, tries);
    }
    if followUps != [] {
      TriesMean(requests[1], 3, followUps);
    }
  }

  lemma OneChat(m: Mailing, tgId: int, result: SendResult, calls: seq<Call>)
    requires OnWire(m, tgId, result, calls)
    ensures forall i | 0 <= i < |calls| :: calls[i].request.chat == tgId
  {
    var tries, followUps, pin := PartsOf(m, tgId, result, calls);
    DeliveryRequests(m, tgId, result, tries, followUps, pin);
  }

  /** The accepted follow-up, if there is one. */
  function Followed(m: Mailing, tgId: int, followUps: seq<Call>): seq<Request> {
    if followUps != [] && followUps[|followUps| - 1].Accepted() then [m.To(tgId)[|m.To(tgId)| - 1]] else []
  }

  lemma AcceptedInParts(m: Mailing, tgId: int, result: SendResult,
                        tries: seq<Call>, followUps: seq<Call>, pin: seq<Call>)
    requires Delivery(m, tgId, result, tries, followUps, pin)
    ensures AcceptedOf(tries + followUps + pin)
         == (if result.Ok() then [m.To(tgId)[0]] else []) + Followed(m, tgId, followUps) + AcceptedOf(pin)
  {
    var requests := m.To(tgId);
    DeliveryRequests(m, tgId, result, tries, followUps, pin);
    AcceptedInTwo(tries + followUps, pin);
    AcceptedInTwo(tries, followUps);
    OnlyLastAccepted(tries, requests[0]);
    OnlyLastAccepted(followUps, requests[|requests| - 1]);
  }

  lemma PinOnly(m: Mailing, tgId: int, result: SendResult, pin: seq<Call>)
    requires Pins(m, tgId, result, pin)
    ensures AcceptedOf(pin) == [] || (|AcceptedOf(pin)| == 1 && AcceptedOf(pin)[0].PinMessage?)
  {
    if pin != [] {
      OnlyLastAccepted(pin, pin[0].request);
    }
  }

  /** The accepted messages of a delivery: none unless the result is SENT, then the first, and the second if it was
      accepted after all its tries; and perhaps a pin. */
  lemma AcceptedByDelivery(m: Mailing, tgId: int, result: SendResult, calls: seq<Call>)
    returns (followed: bool, pin: seq<Request>)
    requires OnWire(m, tgId, result, calls)
    ensures followed ==> result.Ok() && |m.To(tgId)| == 2
    ensures |pin| <= 1 && forall i | 0 <= i < |pin| :: pin[i].PinMessage?
    ensures result.Ok() && |m.To(tgId)| == 2 ==>
              (followed <==> exists c :: c in calls && c.request == m.To(tgId)[1] && c.Accepted())
    ensures result.Ok() && |m.To(tgId)| == 2 ==> exists c :: c in calls && c.request == m.To(tgId)[1]
    ensures AcceptedOf(calls)
         == (if result.Ok() then [m.To(tgId)[0]] else []) + (if followed then [m.To(tgId)[1]] else []) + pin
    ensures !result.Ok() ==> pin == []
  {
    var tries, followUps, pins := PartsOf(m, tgId, result, calls);
    AcceptedInParts(m, tgId, result, tries, followUps, pins);
    PinOnly(m, tgId, result, pins);
    followed, pin := Followed(m, tgId, followUps) != [], AcceptedOf(pins);
    if result.Ok() && |m.To(tgId)| == 2 {
      var last := followUps[|followUps| - 1];
      assert calls[|tries| + |followUps| - 1] == last;
      SecondIsFollowUp(m, tgId, result, tries, followUps, pins);
    }
  }

  lemma SecondIsFollowUp(m: Mailing, tgId: int, result: SendResult,
                         tries: seq<Call>, followUps: seq<Call>, pin: seq<Call>)
    requires Delivery(m, tgId, result, tries, followUps, pin) && result.Ok() && |m.To(tgId)| == 2
    ensures forall c | c in tries + followUps + pin && c.request == m.To(tgId)[1] && c.Accepted() ::
              c == followUps[|followUps| - 1]
  {
    DeliveryRequests(m, tgId, result, tries, followUps, pin);
  }

  lemma AcceptedOnWire(m: Mailing, tgId: int, result: SendResult, calls: seq<Call>, request: Request)
    requires OnWire(m, tgId, result, calls)
    ensures request.chat != tgId ==> TimesAccepted(calls, request) == 0
    ensures request == m.To(tgId)[0] ==> TimesAccepted(calls, request) == if result.Ok() then 1 else 0
    ensures !request.PinMessage? ==> TimesAccepted(calls, request) <= if result.Ok() then 1 else 0
    ensures result.unauthorized ==> !result.Ok()
  {
    OneChat(m, tgId, result, calls);
    CallsToOne(calls, tgId, request.chat);
    TimesAcceptedTo(calls, request);
    var followed, pin := AcceptedByDelivery(m, tgId, result, calls);
    TimesIsCount(calls, request);
  }

  /** What one person has received from a delivery. */
  lemma ReceivedByDelivery(m: Mailing, tgId: int, result: SendResult, calls: seq<Call>)
    requires OnWire(m, tgId, result, calls)
    ensures Received(AcceptedOf(calls))
         == if !result.Ok() then NOTHING
            else if |m.To(tgId)| == 1 || (exists c :: c in calls && c.request == m.To(tgId)[1] && c.Accepted())
            then Received(m.To(tgId))
            else RequestContent(m.To(tgId)[0])
  {
    var followed, pin := AcceptedByDelivery(m, tgId, result, calls);
    if result.Ok() {
      var requests := m.To(tgId);
      var messages := [requests[0]] + if followed then [requests[1]] else [];
      WithoutPin(messages, pin);
      ReceivedOne(requests[0]);
      assert AcceptedOf(calls) == messages + pin;
      assert |requests| == 1 || followed ==> messages == requests;
    }
  }

  lemma WithoutPin(messages: seq<Request>, pin: seq<Request>)
    requires |pin| <= 1 && forall i | 0 <= i < |pin| :: pin[i].PinMessage?
    ensures Received(messages + pin) == Received(messages)
  {
    if pin != [] {
      assert (messages + pin)[..|messages|] == messages;
    } else {
      assert messages + pin == messages;
    }
  }

  // ---------------------------------------------------------------- a session

  /** The calls of a session: those of one `_deliver` after another, in the order of the queue. */
  ghost predicate Wire(m: Mailing, queue: seq<int>, results: seq<SendResult>, calls: seq<Call>)
    requires |results| <= |queue|
    decreases |results|, 1
  {
    if results == [] then calls == [] else exists k: nat | k <= |calls| :: LastFrom(m, queue, results, calls, k)
  }

  /** The calls of the last delivery begin at k. */
  ghost predicate LastFrom(m: Mailing, queue: seq<int>, results: seq<SendResult>, calls: seq<Call>, k: nat)
    requires 0 < |results| <= |queue| && k <= |calls|
    decreases |results|, 0
  {
    var n := |results| - 1;
    && Wire(m, queue, results[..n], calls[..k])
    && OnWire(m, queue[n], results[n], calls[k..])
  }

  lemma WireGrows(m: Mailing, queue: seq<int>, results: seq<SendResult>, result: SendResult,
                  before: seq<Call>, now: seq<Call>, log: seq<Call>)
    requires |results| < |queue| && before <= now <= log
    requires Wire(m, queue, results, now[|before|..])
    requires OnWire(m, queue[|results|], result, log[|now|..])
    ensures Wire(m, queue, results + [result], log[|before|..])
  {
    assert log[|before|..] == now[|before|..] + log[|now|..];
    WireSnoc(m, queue, results, result, now[|before|..], log[|now|..]);
  }

  lemma WireSnoc(m: Mailing, queue: seq<int>, results: seq<SendResult>, result: SendResult,
                 earlier: seq<Call>, last: seq<Call>)
    requires |results| < |queue| && Wire(m, queue, results, earlier)
    requires OnWire(m, queue[|results|], result, last)
    ensures Wire(m, queue, results + [result], earlier + last)
  {
    var calls, k := earlier + last, |earlier|;
    assert (results + [result])[..|results|] == results;
    assert calls[..k] == earlier && calls[k..] == last;
    assert LastFrom(m, queue, results + [result], calls, k);
  }

  /** Where the calls of the last delivery begin. */
  lemma LastDelivery(m: Mailing, queue: seq<int>, results: seq<SendResult>, calls: seq<Call>)
    returns (k: nat)
    requires 0 < |results| <= |queue| && Wire(m, queue, results, calls)
    ensures k <= |calls| && Wire(m, queue, results[..|results| - 1], calls[..k])
    ensures OnWire(m, queue[|results| - 1], results[|results| - 1], calls[k..])
  {
    k :| k <= |calls| && LastFrom(m, queue, results, calls, k);
  }

  lemma {:induction false} ResultsCoherent(m: Mailing, queue: seq<int>, results: seq<SendResult>, calls: seq<Call>)
    requires |results| <= |queue| && Wire(m, queue, results, calls)
    ensures forall k | 0 <= k < |results| :: Coherent(results[k])
    decreases |results|
  {
    if results != [] {
      var k := LastDelivery(m, queue, results, calls);
      ResultsCoherent(m, queue, results[..|results| - 1], calls[..k]);
    }
  }

  lemma CallsAppended(m: Mailing, tgId: int, result: SendResult, earlier: seq<Call>, last: seq<Call>, chat: int)
    requires OnWire(m, tgId, result, last)
    ensures CallsTo(earlier + last, chat) == if chat == tgId then CallsTo(earlier, chat) + last else CallsTo(earlier, chat)
  {
    CallsToInTwo(earlier, last, chat);
    OneChat(m, tgId, result, last);
    CallsToOne(last, tgId, chat);
  }

  /** Whatever else a session sends, the calls to recipient i are those of its own delivery, and there are none
      before its turn. */
  lemma {:induction false} CallsOfRecipient(m: Mailing, queue: seq<int>, results: seq<SendResult>, calls: seq<Call>,
                                            i: nat)
    requires |results| <= |queue| && i < |queue| && Wire(m, queue, results, calls)
    requires forall a, b | 0 <= a < b < |queue| :: queue[a] != queue[b]
    ensures OwnCalls(m, queue, results, i, CallsTo(calls, queue[i]))
    decreases |results|
  {
    if results != [] {
      var n := |results| - 1;
      var k := LastDelivery(m, queue, results, calls);
      CallsOfRecipient(m, queue, results[..n], calls[..k], i);
      OwnCallsGrow(m, queue, results, i, calls[..k], calls[k..]);
      assert calls == calls[..k] + calls[k..];
    }
  }

  ghost predicate OwnCalls(m: Mailing, queue: seq<int>, results: seq<SendResult>, i: nat, calls: seq<Call>)
    requires i < |queue|
  {
    if i < |results| then OnWire(m, queue[i], results[i], calls) else calls == []
  }

  lemma OwnCallsGrow(m: Mailing, queue: seq<int>, results: seq<SendResult>, i: nat, earlier: seq<Call>, last: seq<Call>)
    requires 0 < |results| <= |queue| && i < |queue|
    requires i != |results| - 1 ==> queue[i] != queue[|results| - 1]
    requires OwnCalls(m, queue, results[..|results| - 1], i, CallsTo(earlier, queue[i]))
    requires OnWire(m, queue[|results| - 1], results[|results| - 1], last)
    ensures OwnCalls(m, queue, results, i, CallsTo(earlier + last, queue[i]))
  {
    var n := |results| - 1;
    CallsAppended(m, queue[n], results[n], earlier, last, queue[i]);
    if i == n {
      assert CallsTo(earlier + last, queue[i]) == last;
    }
  }

  /** In a whole session the first message of recipient i (the album, if there is one) is accepted exactly
      once if the result is SENT and never otherwise, however often it was tried; and the text that follows an
      album at most once, and only then. */
  lemma AcceptedOnceIffSent(m: Mailing, queue: seq<int>, results: seq<SendResult>, calls: seq<Call>, i: nat)
    requires |results| <= |queue| && i < |queue| && Wire(m, queue, results, calls)
    requires forall a, b | 0 <= a < b < |queue| :: queue[a] != queue[b]
    ensures var requests := m.To(queue[i]);
            var most := if i < |results| && results[i].Ok() then 1 else 0;
            && TimesAccepted(calls, requests[0]) == most
            && (|requests| == 2 ==> TimesAccepted(calls, requests[1]) <= most)
  {
    var requests := m.To(queue[i]);
    CallsOfRecipient(m, queue, results, calls, i);
    TimesAcceptedTo(calls, requests[0]);
    TimesAcceptedTo(calls, requests[|requests| - 1]);
    if i < |results| {
      AcceptedOnWire(m, queue[i], results[i], CallsTo(calls, queue[i]), requests[0]);
      AcceptedOnWire(m, queue[i], results[i], CallsTo(calls, queue[i]), requests[|requests| - 1]);
    }
  }

  /** What a session brings to recipient i: nothing unless the result is SENT; then everything, unless the text
      that follows an album was refused, and then the album. */
  lemma RecipientReceives(m: Mailing, queue: seq<int>, results: seq<SendResult>, calls: seq<Call>, i: nat)
    requires |results| <= |queue| && i < |queue| && Wire(m, queue, results, calls)
    requires forall a, b | 0 <= a < b < |queue| :: queue[a] != queue[b]
    ensures var requests := m.To(queue[i]);
            Arrived(calls, queue[i])
            == if i >= |results| || !results[i].Ok() then NOTHING
               else if |requests| == 1 || (exists c :: c in calls && c.request == requests[1] && c.Accepted())
               then Content(m.message.Cost(), Shown(m.message.text), MediaPairs(m.message.media),
                            OptSeq(ReplyMarkup(m.message)))
               else RequestContent(requests[0])
  {
    CallsOfRecipient(m, queue, results, calls, i);
    if i < |results| {
      ReceivedByDelivery(m, queue[i], results[i], CallsTo(calls, queue[i]));
      EverythingArrivesOnce(queue[i], m.message);
      if |m.To(queue[i])| == 2 {
        FoundIn(calls, m.To(queue[i])[1]);
      }
    }
  }

  lemma {:induction false} FoundIn(calls: seq<Call>, request: Request)
    ensures forall c: Call | c.request == request :: c in calls <==> c in CallsTo(calls, request.chat)
  {
    if calls != [] {
      FoundIn(calls[1..], request);
    }
  }

  /** The follow-up of a SENT recipient is tried, so nothing is lost unless Telegram refuses it: when every try of
      it in the log was accepted, the recipient has everything. */
  lemma SentInFull(m: Mailing, queue: seq<int>, results: seq<SendResult>, calls: seq<Call>, i: nat)
    requires i < |results| <= |queue| && Wire(m, queue, results, calls) && results[i].Ok()
    requires forall a, b | 0 <= a < b < |queue| :: queue[a] != queue[b]
    requires |m.To(queue[i])| == 2 ==> forall c | c in calls && c.request == m.To(queue[i])[1] :: c.Accepted()
    ensures Arrived(calls, queue[i])
         == Content(m.message.Cost(), Shown(m.message.text), MediaPairs(m.message.media),
                    OptSeq(ReplyMarkup(m.message)))
  {
    RecipientReceives(m, queue, results, calls, i);
    if |m.To(queue[i])| == 2 {
      FollowUpIsTried(m, queue, results, calls, i);
    }
  }

  lemma FollowUpIsTried(m: Mailing, queue: seq<int>, results: seq<SendResult>, calls: seq<Call>, i: nat)
    requires i < |results| <= |queue| && Wire(m, queue, results, calls) && results[i].Ok()
    requires forall a, b | 0 <= a < b < |queue| :: queue[a] != queue[b]
    requires |m.To(queue[i])| == 2
    ensures exists c: Call :: c in calls && c.request == m.To(queue[i])[1]
  {
    CallsOfRecipient(m, queue, results, calls, i);
    var _, _ := AcceptedByDelivery(m, queue[i], results[i], CallsTo(calls, queue[i]));
    FoundIn(calls, m.To(queue[i])[1]);
  }

  // ---------------------------------------------------------------- the text that follows an album

  /** The request was accepted before call p. */
  ghost predicate AcceptedBefore(calls: seq<Call>, request: Request, p: nat) {
    exists q | 0 <= q < p :: q < |calls| && calls[q].request == request && calls[q].Accepted()
  }

  lemma AcceptedBeforeInTwo(a: seq<Call>, b: seq<Call>, request: Request, p: nat)
    ensures AcceptedBefore(a, request, p) ==> AcceptedBefore(a + b, request, p)
    ensures AcceptedBefore(b, request, p) ==> AcceptedBefore(a + b, request, |a| + p)
  {
    if AcceptedBefore(a, request, p) {
      var q :| 0 <= q < p && q < |a| && a[q].request == request && a[q].Accepted();
      assert (a + b)[q] == a[q];
    }
    if AcceptedBefore(b, request, p) {
      var q :| 0 <= q < p && q < |b| && b[q].request == request && b[q].Accepted();
      assert (a + b)[|a| + q] == b[q];
    }
  }

  /** Before a try of a follow-up stands the accepted album of the same delivery. */
  lemma AlbumBefore(m: Mailing, tgId: int, result: SendResult, calls: seq<Call>, p: nat)
    requires OnWire(m, tgId, result, calls) && |m.To(tgId)| == 2
    requires p < |calls| && calls[p].request == m.To(tgId)[1]
    ensures AcceptedBefore(calls, m.To(tgId)[0], p)
  {
    var tries, followUps, pin := PartsOf(m, tgId, result, calls);
    DeliveryRequests(m, tgId, result, tries, followUps, pin);
    assert tries != [] && calls[|tries| - 1] == tries[|tries| - 1];
  }

  /** The same over a whole session: the text that follows an album is not even tried before the album was
      accepted. */
  lemma {:induction false} FollowUpAfterAlbum(m: Mailing, queue: seq<int>, results: seq<SendResult>, calls: seq<Call>,
                                              tgId: int, p: nat)
    requires |results| <= |queue| && Wire(m, queue, results, calls)
    requires |m.To(tgId)| == 2 && p < |calls| && calls[p].request == m.To(tgId)[1]
    ensures AcceptedBefore(calls, m.To(tgId)[0], p)
    decreases |results|
  {
    var n := |results| - 1;
    var k := LastDelivery(m, queue, results, calls);
    assert calls == calls[..k] + calls[k..];
    if p < k {
      FollowUpAfterAlbum(m, queue, results[..n], calls[..k], tgId, p);
      AcceptedBeforeInTwo(calls[..k], calls[k..], m.To(tgId)[0], p);
    } else {
      OneChat(m, queue[n], results[n], calls[k..]);
      assert calls[k..][p - k] == calls[p];
      AlbumBefore(m, tgId, results[n], calls[k..], p - k);
      AcceptedBeforeInTwo(calls[..k], calls[k..], m.To(tgId)[0], p - k);
    }
  }
}
