/** The background runner of one broadcast (services/broadcasts/runner.py). */
module BroadcastRunner {
  import opened Prelude
  import opened BroadcastModels
  import opened RecipientRows
  import opened SendSession
  import Machine = DeliveryMachine
  import opened BroadcastRepository
  import opened Telegram
  import opened DeliveryLog
  import opened Pacing
  import opened WireRate

  datatype StopReason = CancelSeen | QueueEmpty | TokenRefused | TooManyFailures(streak: nat)

  function Outcome(reason: StopReason): BroadcastStatus {
    match reason
    case CancelSeen => Canceled
    case QueueEmpty => Done
    case TokenRefused => BroadcastStatus.Failed
    case TooManyFailures(_) => BroadcastStatus.Failed
  }

  class BroadcastRunner {
    const repo: Repository
    const bot: TelegramBot
    const pacer: Pacer
    const batchSize: nat
    const maxAttempts: int
    const maxFailures: int
    /** Whether an admin asks to cancel while the runner waits for the k-th time: for a statement or a delivery. */
    const cancels: nat -> bool
    var waits: nat

    /** The state at the start of the history, and the events since. */
    ghost var origin: Machine.Machine
    ghost var trace: seq<Machine.Event>
    ghost var state: Machine.Machine

    /** What the bot had sent before this runner, and the calls of each slot since. */
    ghost const sentBefore: seq<Call>
    ghost var bursts: seq<seq<Call>>

    constructor (repo: Repository, bot: TelegramBot, rate: real, clock: nat -> real, batchSize: nat, maxAttempts: int,
                 maxFailures: int, cancels: nat -> bool, ghost origin: Machine.Machine)
      requires bot.Valid()
      ensures this.repo == repo && this.bot == bot && fresh(pacer) && this.batchSize == batchSize
      ensures this.maxAttempts == maxAttempts && this.maxFailures == maxFailures && this.cancels == cancels
      ensures this.origin == origin && trace == [] && state == origin && Replays()
      ensures Paced() && bursts == [] && (rate > 0.0 ==> pacer.interval == 1.0 / rate)
    {
      this.repo, this.bot := repo, bot;
      pacer := new Pacer(rate, clock);
      this.batchSize, this.maxAttempts, this.maxFailures := batchSize, maxAttempts, maxFailures;
      this.cancels := cancels;
      waits := 0;
      this.origin := origin;
      trace := [];
      state := origin;
      sentBefore, bursts := bot.log, [];
    }

    /** Every call since the start belongs to a slot that pays for the messages accepted in it. */
    ghost predicate Paced()
      reads this`bursts, bot, pacer
    {
      && bot.Valid() && pacer.Valid() && WithinSlots(bursts, pacer.slots)
      && sentBefore <= bot.log && bot.log[|sentBefore|..] == Flat(bursts)
    }

    ghost function Sending(message: BroadcastMessage): Mailing {
      Mailing(message, maxAttempts, bot.configured)
    }

    ghost function Cfg(): Machine.Config {
      Machine.Config(batchSize, maxFailures)
    }

    /** The history replays on the step machine and ends in `state`. */
    ghost predicate Replays()
      reads this
    {
      Machine.Run(Cfg(), origin, trace) == Some(state)
    }

    /** The stored broadcast is what the history says it is, and the runner stands at point `at`. */
    ghost predicate At(id: int, at: Machine.Point)
      reads this, repo
    {
      && id in repo.broadcasts && Replays()
      && state == Machine.Machine(repo.broadcasts[id].recipients, repo.broadcasts[id].status, at)
    }

    /** Adds an event to the history; the step machine must accept it. */
    ghost method Log(e: Machine.Event)
      requires Replays() && Machine.Step(Cfg(), state, e).Some?
      modifies this`trace, this`state
      ensures Replays() && trace == old(trace) + [e]
      ensures state == Machine.Step(Cfg(), old(state), e).value
    {
      Machine.RunSnoc(Cfg(), origin, trace, e);
      trace := trace + [e];
      state := Machine.Step(Cfg(), state, e).value;
    }

    ghost function RowsOf(id: int): Rows
      requires id in repo.broadcasts
      reads this, repo
    {
      repo.broadcasts[id].recipients
    }

    /** Other coroutines run while the runner waits; one of them may cancel. */
    method LetOthersRun(id: int, ghost at: Machine.Point)
      requires At(id, at)
      modifies this`waits, this`trace, this`state, repo`broadcasts
      ensures At(id, at) && RowsOf(id) == old(RowsOf(id))
      ensures old(repo.broadcasts[id].status) != Running ==> repo.broadcasts[id].status == old(repo.broadcasts[id].status)
      ensures Active(repo.broadcasts[id].status) == Active(old(repo.broadcasts[id].status))
    {
      if cancels(waits) {
        var _ := repo.RequestCancel(id);
        Log(Machine.RequestCancel);
      }
      waits := waits + 1;
    }

    /** One slot and one `send` in it: a try of the first request if there is a token, and those of the second. */
    method PacedSend(tgId: int, message: BroadcastMessage)
      returns (r: SendResult, ghost try: seq<Call>, ghost followUps: seq<Call>)
      requires Paced()
      modifies this`bursts, pacer, bot
      ensures Paced() && Coherent(r) && bot.log == old(bot.log) + try + followUps
      ensures |bursts| == |old(bursts)| + 1 && pacer.slots[|pacer.slots| - 1].cost == message.Cost()
      ensures if bot.configured then try == [Call(Requests(tgId, message)[0], r)] else try == [] && r == NO_TOKEN
      ensures FollowedUp(Requests(tgId, message), r, followUps)
    {
      NextSlot(message.Cost());
      r := bot.Send(tgId, message);
      ghost var calls := bot.log[|old(bot.log)|..];
      SendWithinCost(tgId, message, bot.configured, calls, r);
      Attribute(old(bot.log), calls);
      try, followUps := TryParts(Requests(tgId, message), bot.configured, old(bot.log), bot.log, r);
    }

    /** A slot for `cost` messages that the calls of the next request are booked on. */
    method NextSlot(cost: nat)
      requires Paced()
      modifies pacer
      ensures bot.Valid() && pacer.Valid() && |pacer.slots| == |bursts| + 1 && pacer.slots[|bursts|].cost == cost
      ensures forall k | 0 <= k < |bursts| :: Messages(bursts[k]) <= pacer.slots[k].cost
    {
      pacer.Wait(cost);
    }

    /** One slot and one pin in it. */
    method PacedPin(request: Request) returns (r: SendResult)
      requires Paced() && request.PinMessage?
      modifies this`bursts, pacer, bot
      ensures Paced() && bot.log == old(bot.log) + (if bot.configured then [Call(request, r)] else [])
    {
      NextSlot(1);
      r := bot.CallApi(request);
      ghost var calls := if bot.configured then [Call(request, r)] else [];
      assert Messages(calls) == 0;
      Attribute(old(bot.log), calls);
    }

    /** Books calls on the last slot. */
    ghost method Attribute(before: seq<Call>, calls: seq<Call>)
      requires bot.Valid() && pacer.Valid() && |pacer.slots| == |bursts| + 1 && Messages(calls) <= pacer.slots[|bursts|].cost
      requires forall k | 0 <= k < |bursts| :: Messages(bursts[k]) <= pacer.slots[k].cost
      requires sentBefore <= before && before[|sentBefore|..] == Flat(bursts) && bot.log == before + calls
      modifies this`bursts
      ensures Paced() && bursts == old(bursts) + [calls]
    {
      FlatSnoc(bursts, calls);
      assert bot.log[|sentBefore|..] == before[|sentBefore|..] + calls;
      bursts := bursts + [calls];
    }

    /** Whatever the bot was answered, between two slots of this runner Telegram accepted at most `rate` messages
        per second, follow-ups included. */
    lemma AcceptedWithinRate(rate: real, i: nat, j: nat)
      requires Paced() && rate > 0.0 && pacer.interval == 1.0 / rate && i <= j < |bursts|
      ensures Messages(Flat(bursts[i..j])) as real <= Allowance(rate, pacer.slots[i].start, pacer.slots[j].start)
    {
      AcceptedRate(rate, pacer.interval, pacer.readings, pacer.slots, bursts, i, j);
    }

    /** The retry loop of `_deliver`. */
    method Try(tgId: int, message: BroadcastMessage)
      returns (r: SendResult, ghost tries: seq<Call>, ghost followUps: seq<Call>)
      requires Paced()
      modifies this`bursts, pacer, bot
      ensures Paced() && bot.log == old(bot.log) + tries + followUps
      ensures Coherent(r) && FirstTries(Sending(message), Requests(tgId, message)[0], r, tries)
      ensures FollowedUp(Requests(tgId, message), r, followUps)
    {
      r, tries, followUps := Refused(DeliveryStatus.Failed), [], [];
      ghost var first := Requests(tgId, message)[0];
      var attempt := 1;
      while attempt <= maxAttempts
        invariant Paced() && 1 <= attempt == |tries| + 1 && Coherent(r) && !r.Ok()
        invariant bot.log == old(bot.log) + tries && followUps == []
        invariant Retrying(Sending(message), first, r, tries)
      {
        ghost var earlier := r;
        ghost var try;
        r, try, followUps := PacedSend(tgId, message);
        OneMoreTry(Sending(message), first, earlier, tries, r, try);
        tries := tries + try;
        if r.retryAfter.None? || attempt == maxAttempts {
          break;
        }
        attempt := attempt + 1;
      }
    }

    /** The tries, and one pin if and only if the message was accepted, is to be pinned and has an id. */
    method Deliver(tgId: int, message: BroadcastMessage) returns (r: SendResult)
      requires Paced()
      modifies this`bursts, pacer, bot
      ensures Paced() && old(bot.log) <= bot.log
      ensures OnWire(Sending(message), tgId, r, bot.log[|old(bot.log)|..])
    {
      ghost var tries, followUps;
      ghost var pin: seq<Call> := [];
      r, tries, followUps := Try(tgId, message);
      if r.Ok() && message.pin && r.messageId.Some? {
        var pinned := PacedPin(PinMessage(tgId, r.messageId.value));
        pin := [Call(PinMessage(tgId, r.messageId.value), pinned)];
      }
      DeliveryIsOnWire(Sending(message), tgId, r, old(bot.log), tries, followUps, pin, bot.log);
    }

    /** `claim` of the next batch. */
    method ClaimStep(id: int, ghost streak: nat) returns (batch: seq<int>)
      requires At(id, Machine.MayClaim(streak))
      modifies this`trace, this`state, repo`broadcasts
      ensures id in repo.broadcasts && repo.broadcasts[id].status == old(repo.broadcasts[id].status)
      ensures batch == NextBatch(old(RowsOf(id)), batchSize)
      ensures RowsOf(id) == Claimed(old(RowsOf(id)), batch)
      ensures At(id, if batch == [] then Machine.Exiting(Done) else Machine.Ready(batch, streak))
    {
      batch := repo.Claim(id, batchSize);
      Log(Machine.Claim);
      if batch == [] {
        ClaimedNothing(old(RowsOf(id)));
      }
    }

    /** `record` of the result of the recipient in hand. */
    method RecordStep(id: int, tgId: int, result: SendResult, ghost todo: seq<int>, ghost streak: nat)
      requires todo != [] && todo[0] == tgId && !result.unauthorized && At(id, Machine.Delivered(todo, result, streak))
      modifies this`trace, this`state, repo`broadcasts
      ensures id in repo.broadcasts && repo.broadcasts[id].status == old(repo.broadcasts[id].status)
      ensures RowsOf(id) == Settled(old(RowsOf(id)), tgId, result.status)
      ensures At(id, Machine.AfterRecord(Cfg(), todo[1..],
                                         if result.status == DeliveryStatus.Failed then streak + 1 else 0))
    {
      repo.Record(id, tgId, result.status);
      Log(Machine.Settle);
    }

    /** The record of one result, in terms of the session so far. */
    method SettleStep(id: int, result: SendResult, ghost todo: seq<int>, tgId: int, ghost streak: nat,
                      ghost start: Rows, ghost earlier: seq<SendResult>)
      requires todo != [] && todo[0] == tgId && !result.unauthorized && At(id, Machine.Delivered(todo, result, streak))
      requires InHand(start, earlier, todo, RowsOf(id))
      modifies this`waits, this`trace, this`state, repo`broadcasts
      ensures id in repo.broadcasts && Active(repo.broadcasts[id].status) == Active(old(repo.broadcasts[id].status))
      ensures At(id, Machine.AfterRecord(Cfg(), todo[1..],
                                         if result.status == DeliveryStatus.Failed then streak + 1 else 0))
      ensures InHand(start, earlier + [result], todo[1..], RowsOf(id))
    {
      LetOthersRun(id, Machine.Delivered(todo, result, streak));
      SettleInHand(start, earlier, todo, RowsOf(id), result);
      RecordStep(id, tgId, result, todo, streak);
    }

    /** `release_claimed` of the part of the batch that was not recorded. */
    method ReleaseStep(id: int, tgIds: seq<int>, ghost at: Machine.Point, ghost start: Rows,
                       ghost results: seq<SendResult>)
      requires At(id, at) && (at.Draining? || (at.Delivered? && at.result.unauthorized)) && at.todo == tgIds
      requires InHand(start, results, tgIds, RowsOf(id))
      modifies this`waits, this`trace, this`state, repo`broadcasts
      ensures At(id, Machine.Exiting(BroadcastStatus.Failed))
      ensures Active(repo.broadcasts[id].status) == Active(old(repo.broadcasts[id].status))
      ensures RowsOf(id) == Answered(start, Queue(start), results)
    {
      LetOthersRun(id, at);
      ReleaseInHand(start, results, tgIds, RowsOf(id));
      repo.ReleaseClaimed(id, tgIds);
      Log(Machine.Release);
    }

    /** The body of the `for` loop after the delivery: what the answer does to the session. */
    method HandleAnswer(id: int, todo: seq<int>, answer: SendResult, streak: nat,
                        ghost start: Rows, ghost earlier: seq<SendResult>)
      returns (stop: Option<StopReason>, failures: nat)
      requires todo != [] && At(id, Machine.Delivered(todo, answer, streak))
      requires InHand(start, earlier, todo, RowsOf(id)) && streak == Trailing(earlier)
      modifies this`waits, this`trace, this`state, repo`broadcasts
      ensures id in repo.broadcasts && Active(repo.broadcasts[id].status) == Active(old(repo.broadcasts[id].status))
      ensures stop.None? ==>
                && At(id, if todo[1..] == [] then Machine.LoopHead(failures) else Machine.Ready(todo[1..], failures))
                && failures == Trailing(earlier + [answer]) && !answer.unauthorized && failures < maxFailures
                && InHand(start, earlier + [answer], todo[1..], RowsOf(id))
      ensures stop.Some? ==>
                && At(id, Machine.Exiting(BroadcastStatus.Failed))
                && (answer.unauthorized || Trailing(earlier + [answer]) >= maxFailures)
                && RowsOf(id) == Answered(start, Queue(start), earlier + [answer])
                && stop.value == (if answer.unauthorized then TokenRefused
                                  else TooManyFailures(Trailing(earlier + [answer])))
    {
      failures, stop := streak, None;
      assert (earlier + [answer])[..|earlier|] == earlier;
      if answer.unauthorized {
        ReleaseStep(id, todo, Machine.Delivered(todo, answer, streak), start, earlier);
        return Some(TokenRefused), failures;
      }
      SettleStep(id, answer, todo, todo[0], streak, start, earlier);
      failures := if answer.status == DeliveryStatus.Failed then failures + 1 else 0;
      if failures >= maxFailures {
        ReleaseStep(id, todo[1..], Machine.Draining(todo[1..]), start, earlier + [answer]);
        return Some(TooManyFailures(failures)), failures;
      }
    }

    /** The body of the `for` loop: one recipient of the batch in hand. */
    method SendOne(id: int, message: BroadcastMessage, todo: seq<int>, streak: nat,
                   ghost start: Rows, ghost earlier: seq<SendResult>)
      returns (stop: Option<StopReason>, failures: nat, ghost result: SendResult)
      requires todo != [] && Paced() && At(id, Machine.Ready(todo, streak))
      requires InHand(start, earlier, todo, RowsOf(id)) && streak == Trailing(earlier)
      modifies this`waits, this`trace, this`state, this`bursts, repo`broadcasts, bot, pacer
      ensures Paced() && id in repo.broadcasts && old(bot.log) <= bot.log
      ensures OnWire(Sending(message), todo[0], result, bot.log[|old(bot.log)|..])
      ensures Active(repo.broadcasts[id].status) == Active(old(repo.broadcasts[id].status))
      ensures stop.None? ==>
                && At(id, if todo[1..] == [] then Machine.LoopHead(failures) else Machine.Ready(todo[1..], failures))
                && failures == Trailing(earlier + [result]) && !result.unauthorized && failures < maxFailures
                && InHand(start, earlier + [result], todo[1..], RowsOf(id))
      ensures stop.Some? ==>
                && At(id, Machine.Exiting(BroadcastStatus.Failed))
                && (result.unauthorized || Trailing(earlier + [result]) >= maxFailures)
                && RowsOf(id) == Answered(start, Queue(start), earlier + [result])
                && stop.value == (if result.unauthorized then TokenRefused
                                  else TooManyFailures(Trailing(earlier + [result])))
    {
      LetOthersRun(id, Machine.Ready(todo, streak));
      var answer := Deliver(todo[0], message);
      result := answer;
      Log(Machine.Deliver(result));
      stop, failures := HandleAnswer(id, todo, answer, streak, start, earlier);
    }

    /** In the middle of a session that began with `start` when the bot had sent `log`: `results` are its answers
        so far and `todo` is the batch in hand. */
    ghost predicate Midway(id: int, message: BroadcastMessage, todo: seq<int>, streak: nat,
                           start: Rows, results: seq<SendResult>, log: seq<Call>)
      reads this, repo, bot, pacer
    {
      && Paced() && At(id, if todo == [] then Machine.LoopHead(streak) else Machine.Ready(todo, streak))
      && InHand(start, results, todo, RowsOf(id))
      && GoesOn(results, maxFailures) && streak == Trailing(results)
      && log <= bot.log && Wire(Sending(message), Queue(start), results, bot.log[|log|..])
    }

    /** The last of the answers was a reason to stop. */
    ghost predicate Stopped(id: int, message: BroadcastMessage, stop: StopReason,
                            start: Rows, results: seq<SendResult>, log: seq<Call>)
      reads this, repo, bot, pacer
    {
      && Paced() && At(id, Machine.Exiting(BroadcastStatus.Failed))
      && StopsAtEnd(results, maxFailures) && |results| <= |Queue(start)|
      && RowsOf(id) == Answered(start, Queue(start), results)
      && stop == (if results[|results| - 1].unauthorized then TokenRefused else TooManyFailures(Trailing(results)))
      && log <= bot.log && Wire(Sending(message), Queue(start), results, bot.log[|log|..])
    }

    /** One recipient, as a step of the session. */
    method Advance(id: int, message: BroadcastMessage, todo: seq<int>, streak: nat,
                   ghost start: Rows, ghost earlier: seq<SendResult>, ghost log: seq<Call>)
      returns (stop: Option<StopReason>, failures: nat, ghost results: seq<SendResult>)
      requires todo != [] && Midway(id, message, todo, streak, start, earlier, log)
      modifies this`waits, this`trace, this`state, this`bursts, repo`broadcasts, bot, pacer
      ensures id in repo.broadcasts && Active(repo.broadcasts[id].status) == Active(old(repo.broadcasts[id].status))
      ensures |results| == |earlier| + 1
      ensures stop.None? ==> Midway(id, message, todo[1..], failures, start, results, log)
      ensures stop.Some? ==> Stopped(id, message, stop.value, start, results, log)
    {
      ghost var result, sent := Refused(DeliveryStatus.Failed), bot.log;
      stop, failures, result := SendOne(id, message, todo, streak, start, earlier);
      results := earlier + [result];
      OneMore(earlier, result, maxFailures);
      assert todo[0] == Queue(start)[|earlier|];
      WireGrows(Sending(message), Queue(start), earlier, result, log, sent, bot.log);
    }

    /** The `for` loop over one claimed batch. */
    method SendBatch(id: int, message: BroadcastMessage, batch: seq<int>, streak: nat,
                     ghost start: Rows, ghost earlier: seq<SendResult>, ghost log: seq<Call>)
      returns (stop: Option<StopReason>, failures: nat, ghost results: seq<SendResult>)
      requires batch != [] && Midway(id, message, batch, streak, start, earlier, log)
      modifies this`waits, this`trace, this`state, this`bursts, repo`broadcasts, bot, pacer
      ensures id in repo.broadcasts && Active(repo.broadcasts[id].status) == Active(old(repo.broadcasts[id].status))
      ensures |results| > |earlier|
      ensures stop.None? ==> Midway(id, message, [], failures, start, results, log)
      ensures stop.Some? ==> Stopped(id, message, stop.value, start, results, log)
    {
      failures, results, stop := streak, earlier, None;
      var todo := batch;
      while todo != []
        invariant id in repo.broadcasts
        invariant Active(repo.broadcasts[id].status) == Active(old(repo.broadcasts[id].status))
        invariant Midway(id, message, todo, failures, start, results, log)
        invariant |results| + |todo| == |earlier| + |batch| && stop == None
        decreases |todo|
      {
        stop, failures, results := Advance(id, message, todo, failures, start, results, log);
        if stop.Some? {
          return;
        }
        todo := todo[1..];
      }
    }

    /** The head of the `while` loop: is there a cancel? */
    method SeesCancel(id: int, ghost streak: nat) returns (canceled: bool)
      requires At(id, Machine.LoopHead(streak))
      modifies this`waits, this`trace, this`state, repo`broadcasts
      ensures At(id, if canceled then Machine.Exiting(Canceled) else Machine.MayClaim(streak))
      ensures RowsOf(id) == old(RowsOf(id))
      ensures Active(repo.broadcasts[id].status) == Active(old(repo.broadcasts[id].status))
      ensures canceled ==> repo.broadcasts[id].status != Running
    {
      LetOthersRun(id, Machine.LoopHead(streak));
      var status := repo.Status(id);
      Log(Machine.CheckStatus);
      canceled := status != Some(Running);
    }

    /** The claim of the next batch, in terms of the session so far. */
    method TakeBatch(id: int, ghost streak: nat, ghost start: Rows, ghost results: seq<SendResult>)
      returns (batch: seq<int>)
      requires At(id, Machine.MayClaim(streak)) && InHand(start, results, [], RowsOf(id))
      modifies this`waits, this`trace, this`state, repo`broadcasts
      ensures id in repo.broadcasts && Active(repo.broadcasts[id].status) == Active(old(repo.broadcasts[id].status))
      ensures At(id, if batch == [] then Machine.Exiting(Done) else Machine.Ready(batch, streak))
      ensures InHand(start, results, batch, RowsOf(id)) && |batch| <= batchSize
      ensures batch == [] && batchSize > 0 ==> |results| == |Queue(start)|
    {
      LetOthersRun(id, Machine.MayClaim(streak));
      ClaimInHand(start, results, RowsOf(id), batchSize);
      EmptyBatchEndsQueue(start, results, RowsOf(id), batchSize);
      batch := ClaimStep(id, streak);
    }

    /** Sends until the queue is empty, a cancel is seen, the token is refused or too many recipients
        in a row failed. */
    method SendAll(id: int, message: BroadcastMessage) returns (reason: StopReason, ghost results: seq<SendResult>)
      requires Paced() && At(id, Machine.LoopHead(0)) && NoneSending(RowsOf(id))
      modifies this`waits, this`trace, this`state, this`bursts, repo`broadcasts, bot, pacer
      ensures Paced() && id in repo.broadcasts && At(id, Machine.Exiting(Outcome(reason)))
      ensures Active(repo.broadcasts[id].status) == Active(old(repo.broadcasts[id].status))
      ensures SessionResult(old(RowsOf(id)), results, RowsOf(id), reason)
      ensures old(bot.log) <= bot.log
      ensures Wire(Sending(message), Queue(old(RowsOf(id))), results, bot.log[|old(bot.log)|..])
      ensures reason == CancelSeen ==> repo.broadcasts[id].status != Running
    {
      ghost var start := RowsOf(id);
      StartInHand(start);
      var failures := 0;
      results := [];
      while true
        invariant id in repo.broadcasts
        invariant Active(repo.broadcasts[id].status) == Active(old(repo.broadcasts[id].status))
        invariant Midway(id, message, [], failures, start, results, old(bot.log))
        invariant batchSize == 0 ==> results == []
        decreases |Queue(start)| - |results|
      {
        ClaimedNothing(Answered(start, Queue(start), results));
        var canceled := SeesCancel(id, failures);
        if canceled {
          return CancelSeen, results;
        }
        var batch := TakeBatch(id, failures, start, results);
        if batch == [] {
          return QueueEmpty, results;
        }
        var stop;
        stop, failures, results := SendBatch(id, message, batch, failures, start, results, old(bot.log));
        if stop.Some? {
          return stop.value, results;
        }
      }
    }

    /** What a session made of the rows it started from, and why it ended. */
    ghost predicate SessionResult(start: Rows, results: seq<SendResult>, end: Rows, reason: StopReason) {
      && |results| <= |Queue(start)|
      && end == Answered(start, Queue(start), results)
      && (batchSize == 0 ==> results == [])
      && (match reason
          case CancelSeen => GoesOn(results, maxFailures)
          case QueueEmpty => GoesOn(results, maxFailures) && (batchSize > 0 ==> |results| == |Queue(start)|)
          case TokenRefused => StopsAtEnd(results, maxFailures) && results[|results| - 1].unauthorized
          case TooManyFailures(streak) =>
            && StopsAtEnd(results, maxFailures) && !results[|results| - 1].unauthorized
            && streak == Trailing(results) >= maxFailures)
    }

    /** Returns to the queue whatever an earlier process left in `sending`. */
    method TakeUp(id: int)
      requires At(id, Machine.Down) && Active(repo.broadcasts[id].status)
      modifies this`waits, this`trace, this`state, repo`broadcasts
      ensures At(id, Machine.LoopHead(0)) && Active(repo.broadcasts[id].status)
      ensures RowsOf(id) == Released(old(RowsOf(id)), [])
    {
      LetOthersRun(id, Machine.Down);
      repo.ReleaseClaimed(id, []);
      Log(Machine.Start);
    }

    /** Stores the outcome of the session. */
    method PutDown(id: int, outcome: BroadcastStatus)
      requires At(id, Machine.Exiting(outcome)) && Active(repo.broadcasts[id].status)
      modifies this`waits, this`trace, this`state, repo`broadcasts
      ensures At(id, Machine.Down) && repo.broadcasts[id].status == outcome && RowsOf(id) == old(RowsOf(id))
    {
      LetOthersRun(id, Machine.Exiting(outcome));
      repo.Finish(id, outcome);
      Log(Machine.Finish);
    }

    /** One start of the runner process, up to its final status or an exit without work. */
    method Run(id: int, message: BroadcastMessage) returns (reason: Option<StopReason>, ghost results: seq<SendResult>)
      requires Paced() && (id in repo.broadcasts ==> At(id, Machine.Down))
      modifies this`waits, this`trace, this`state, this`bursts, repo`broadcasts, bot, pacer
      ensures id in old(repo.broadcasts) ==> At(id, Machine.Down)
      ensures reason.Some? <==> id in old(repo.broadcasts) && Active(old(repo.broadcasts[id].status))
      ensures reason.None? ==> repo.broadcasts == old(repo.broadcasts) && bot.log == old(bot.log) && trace == old(trace)
      ensures reason.Some? ==>
                var released := Released(old(RowsOf(id)), []);
                && repo.broadcasts[id].status == (if reason.value == CancelSeen then Canceled
                                                  else if reason.value == QueueEmpty then Done
                                                  else BroadcastStatus.Failed)
                && SessionResult(released, results, RowsOf(id), reason.value)
                && old(bot.log) <= bot.log
                && Wire(Sending(message), Queue(released), results, bot.log[|old(bot.log)|..])
    {
      results := [];
      var status := repo.Status(id);
      if status.None? || !Active(status.value) {
        return None, [];
      }
      TakeUp(id);
      var why;
      why, results := SendAll(id, message);
      PutDown(id, Outcome(why));
      reason := Some(why);
    }

    lemma SessionPrefixGoesOn(results: seq<SendResult>, reason: StopReason, start: Rows, end: Rows)
      requires SessionResult(start, results, end, reason) && results != []
      ensures GoesOn(results[..|results| - 1], maxFailures)
    {
    }

    /** Where a recipient of the queue stands after a session: recorded as SENT if and only if there is a result for
        it and that is SENT. */
    lemma SentAt(start: Rows, results: seq<SendResult>, end: Rows, reason: StopReason, tgId: int) returns (i: nat)
      requires SessionResult(start, results, end, reason) && tgId in Queue(start)
      requires forall k | 0 <= k < |results| :: Coherent(results[k])
      ensures i < |Queue(start)| && Queue(start)[i] == tgId && tgId in end
      ensures end[tgId] == Recorded(Sent) <==> i < |results| && results[i].Ok()
    {
      var queue := Queue(start);
      QueueFacts(start);
      AnsweredKeys(start, queue, results);
      i :| 0 <= i < |queue| && queue[i] == tgId;
      if i >= |results| {
        assert tgId !in queue[..|results|];
        AnsweredElsewhere(start, queue, results, tgId);
      } else if results[i].unauthorized {
        SessionPrefixGoesOn(results, reason, start, end);
        RefusedStaysPending(start, results, maxFailures, i);
      } else {
        AnsweredAtIndex(start, queue, results, i);
      }
    }

    /** In one session every recipient's first message is accepted exactly once if it ends as SENT there,
        and never otherwise. */
    lemma SentIffAcceptedOnce(message: BroadcastMessage, start: Rows, results: seq<SendResult>, end: Rows,
                              reason: StopReason, calls: seq<Call>, tgId: int)
      requires SessionResult(start, results, end, reason) && tgId in Queue(start)
      requires Wire(Sending(message), Queue(start), results, calls)
      ensures tgId in end
      ensures TimesAccepted(calls, Requests(tgId, message)[0]) == if end[tgId] == Recorded(Sent) then 1 else 0
    {
      QueueFacts(start);
      ResultsCoherent(Sending(message), Queue(start), results, calls);
      var i := SentAt(start, results, end, reason, tgId);
      AcceptedOnceIffSent(Sending(message), Queue(start), results, calls, i);
    }

    /** What a session brings to a recipient of its queue: nothing unless it ends as SENT there; then the text, every
        file and the button, each once, or without the text and the button that follow an album if Telegram accepted
        no try of them. */
    lemma SentReceives(message: BroadcastMessage, start: Rows, results: seq<SendResult>, end: Rows,
                       reason: StopReason, calls: seq<Call>, tgId: int)
      requires SessionResult(start, results, end, reason) && tgId in Queue(start)
      requires Wire(Sending(message), Queue(start), results, calls)
      ensures tgId in end
      ensures var requests := Requests(tgId, message);
              Arrived(calls, tgId)
              == if end[tgId] != Recorded(Sent) then NOTHING
                 else if |requests| == 1 || (exists c :: c in calls && c.request == requests[1] && c.Accepted())
                 then Content(message.Cost(), Shown(message.text), MediaPairs(message.media), OptSeq(ReplyMarkup(message)))
                 else RequestContent(requests[0])
    {
      QueueFacts(start);
      ResultsCoherent(Sending(message), Queue(start), results, calls);
      var i := SentAt(start, results, end, reason, tgId);
      RecipientReceives(Sending(message), Queue(start), results, calls, i);
    }

    /** The second message is always tried: if Telegram accepts every try of it, SENT means everything arrived. */
    lemma SentMeansEverything(message: BroadcastMessage, start: Rows, results: seq<SendResult>, end: Rows,
                              reason: StopReason, calls: seq<Call>, tgId: int)
      requires SessionResult(start, results, end, reason) && tgId in Queue(start)
      requires Wire(Sending(message), Queue(start), results, calls)
      requires forall c | c in calls && |Requests(tgId, message)| == 2 && c.request == Requests(tgId, message)[1] ::
                 c.Accepted()
      requires tgId in end && end[tgId] == Recorded(Sent)
      ensures Arrived(calls, tgId)
           == Content(message.Cost(), Shown(message.text), MediaPairs(message.media), OptSeq(ReplyMarkup(message)))
    {
      QueueFacts(start);
      ResultsCoherent(Sending(message), Queue(start), results, calls);
      var i := SentAt(start, results, end, reason, tgId);
      SentInFull(Sending(message), Queue(start), results, calls, i);
    }

    /** A session never leaves a recipient in `sending`. One that ended with an empty batch has recorded
        everyone if and only if batches have a size or nobody was waiting. */
    lemma SessionLeavesNoneSending(start: Rows, results: seq<SendResult>, end: Rows, reason: StopReason)
      requires NoneSending(start) && SessionResult(start, results, end, reason)
      ensures end.Keys == start.Keys && NoneSending(end)
      ensures reason == QueueEmpty ==> (AllRecorded(end) <==> batchSize > 0 || Queue(start) == [])
    {
      QueueFacts(start);
      AnsweredKeys(start, Queue(start), results);
      if reason == QueueEmpty {
        if batchSize > 0 || Queue(start) == [] {
          WholeQueueRecorded(start, results, maxFailures);
        } else {
          assert Queue(start)[0] in Queue(start);
        }
      }
    }
  }
}
