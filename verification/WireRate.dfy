/** The rate at which Telegram accepts messages of a broadcast: every slot of the pacer covers the calls made
    until the next one (services/broadcasts/runner.py, services/broadcasts/telegram.py). */
module WireRate {
  import opened BroadcastModels
  import opened Telegram
  import opened Pacing

  /** Messages that the accepted calls put into chats; a pin is not a message. */
  function Messages(calls: seq<Call>): nat {
    if calls == [] then 0
    else Messages(calls[1..]) + (if calls[0].Accepted() then RequestContent(calls[0].request).messages else 0)
  }

  function Flat(bursts: seq<seq<Call>>): seq<Call> {
    if bursts == [] then [] else Flat(bursts[..|bursts| - 1]) + bursts[|bursts| - 1]
  }

  /** Burst k are the calls of slot k, and no more messages were accepted in it than the slot pays for. */
  ghost predicate WithinSlots(bursts: seq<seq<Call>>, slots: seq<Slot>) {
    |bursts| == |slots| && forall k | 0 <= k < |bursts| :: Messages(bursts[k]) <= slots[k].cost
  }

  lemma FlatSnoc(bursts: seq<seq<Call>>, calls: seq<Call>)
    ensures Flat(bursts + [calls]) == Flat(bursts) + calls
  {
    assert (bursts + [calls])[..|bursts|] == bursts;
  }

  lemma {:induction false} MessagesInTwo(a: seq<Call>, b: seq<Call>)
    ensures Messages(a + b) == Messages(a) + Messages(b)
  {
    if a == [] {
      assert a + b == b;
    } else {
      MessagesInTwo(a[1..], b);
      assert (a + b)[1..] == a[1..] + b;
    }
  }

  lemma {:induction false} FollowUpOnce(request: Request, calls: seq<Call>)
    requires forall i | 0 <= i < |calls| :: calls[i].request == request
    requires forall i | 0 <= i < |calls| - 1 :: !calls[i].Accepted()
    ensures Messages(calls) <= RequestContent(request).messages
  {
    if calls != [] {
      FollowUpOnce(request, calls[1..]);
    }
  }

  /** One `send`, with all its tries of the follow-up, never has more messages accepted than the cost that its
      one slot pays for. */
  lemma SendWithinCost(chat: int, message: BroadcastMessage, configured: bool, calls: seq<Call>, r: SendResult)
    requires SendTrace(Requests(chat, message), configured, calls, r)
    ensures Messages(calls) <= message.Cost()
  {
    var requests := Requests(chat, message);
    EverythingArrivesOnce(chat, message);
    if configured && r.Ok() {
      assert calls == [calls[0]] + calls[1..];
      if |requests| > 1 {
        TriesMean(requests[1], 3, calls[1..]);
        FollowUpOnce(requests[1], calls[1..]);
        assert requests == [requests[0], requests[1]];
        ReceivedTwo(requests[0], requests[1]);
      } else {
        assert requests == [requests[0]];
        ReceivedOne(requests[0]);
        assert calls[1..] == [];
      }
    }
  }

  lemma {:induction false} MessagesBetween(bursts: seq<seq<Call>>, slots: seq<Slot>, i: nat, j: nat)
    requires WithinSlots(bursts, slots) && i <= j <= |slots|
    ensures Messages(Flat(bursts[i..j])) <= CostBetween(slots, i, j)
    decreases j
  {
    if i < j {
      MessagesBetween(bursts, slots, i, j - 1);
      assert bursts[i..j] == bursts[i..j - 1] + [bursts[j - 1]];
      FlatSnoc(bursts[i..j - 1], bursts[j - 1]);
      MessagesInTwo(Flat(bursts[i..j - 1]), bursts[j - 1]);
    }
  }

  /** Messages that a rate allows between two moments. */
  function Allowance(rate: real, from: real, to: real): real {
    (to - from) * rate
  }

  /** Between any two slots Telegram accepts at most `rate` messages per second. */
  lemma AcceptedRate(rate: real, interval: real, readings: seq<real>, slots: seq<Slot>, bursts: seq<seq<Call>>,
                     i: nat, j: nat)
    requires rate > 0.0 && interval == 1.0 / rate && Greedy(interval, readings, slots)
    requires WithinSlots(bursts, slots) && i <= j < |slots|
    ensures Messages(Flat(bursts[i..j])) as real <= Allowance(rate, slots[i].start, slots[j].start)
  {
    GreedyIsSpaced(interval, readings, slots);
    MessagesWithinRate(rate, readings, slots, i, j);
    MessagesBetween(bursts, slots, i, j);
  }
}
