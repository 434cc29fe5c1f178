/** What Telegram accepts over a whole history of one broadcast, with crashes in the middle of deliveries
    (services/broadcasts/runner.py, services/broadcasts/telegram.py). */
module DeliveryWire {
  import opened Prelude
  import opened BroadcastModels
  import opened RecipientRows
  import opened DeliveryMachine
  import opened DeliveryGuarantees
  import opened Telegram
  import opened DeliveryLog

  /** An event of the step machine and the calls made since the one before it. */
  datatype Wired = Wired(event: Event, calls: seq<Call>)

  /** A delivery makes the calls of one `_deliver`. A process that crashes while it delivers has made only the
      first of them. No other event makes any call. */
  ghost predicate Explains(m: Machine, mailing: Mailing, w: Wired) {
    match w.event
    case Deliver(result) => m.at.Ready? && m.at.todo != [] && OnWire(mailing, m.at.todo[0], result, w.calls)
    case Crash => w.calls == [] || (m.at.Ready? && m.at.todo != [] && Interrupted(mailing, m.at.todo[0], w.calls))
    case _ => w.calls == []
  }

  ghost predicate Interrupted(mailing: Mailing, tgId: int, calls: seq<Call>) {
    exists rest, result :: OnWire(mailing, tgId, result, calls + rest)
  }

  function Events(ws: seq<Wired>): (es: seq<Event>)
    ensures |es| == |ws|
  {
    if ws == [] then [] else Events(ws[..|ws| - 1]) + [ws[|ws| - 1].event]
  }

  function Calls(ws: seq<Wired>): seq<Call> {
    if ws == [] then [] else Calls(ws[..|ws| - 1]) + ws[|ws| - 1].calls
  }

  ghost predicate Possible(cfg: Config, m: Machine, mailing: Mailing, ws: seq<Wired>) {
    && Run(cfg, m, Events(ws)).Some?
    && (ws != [] ==>
          var prefix := ws[..|ws| - 1];
          && Possible(cfg, m, mailing, prefix)
          && Explains(Run(cfg, m, Events(prefix)).value, mailing, ws[|ws| - 1]))
  }

  lemma InterruptedOnce(mailing: Mailing, tgId: int, calls: seq<Call>, request: Request)
    requires Interrupted(mailing, tgId, calls) && !request.PinMessage?
    ensures TimesAccepted(calls, request) <= if request.chat == tgId then 1 else 0
  {
    var rest, result :| OnWire(mailing, tgId, result, calls + rest);
    AcceptedOnWire(mailing, tgId, result, calls + rest, request);
    TimesAcceptedInTwo(calls, rest, request);
  }

  /** One event: a message is accepted only by a delivery to that recipient, or by one that a crash cut short. */
  lemma StepAccepts(cfg: Config, m: Machine, mailing: Mailing, w: Wired, tgId: int, request: Request)
    requires Safe(cfg, m) && Step(cfg, m, w.event).Some? && Explains(m, mailing, w) && request in mailing.To(tgId)
    ensures var accepted := TimesAccepted(w.calls, request);
            accepted + (if ClosedFor(Step(cfg, m, w.event).value, tgId) then 0 else 1)
            <= (if ClosedFor(m, tgId) then 0 else 1) + (if w.event == Crash then 1 else 0)
  {
    if w.event.Deliver? {
      AcceptedOnWire(mailing, m.at.todo[0], w.event.result, w.calls, request);
      if m.at.todo[0] == tgId {
        DeliveryCloses(cfg, m, w.event, tgId);
      }
    } else if w.event == Crash && w.calls != [] {
      InterruptedOnce(mailing, m.at.todo[0], w.calls, request);
      ReadyIsOpen(cfg, m);
    }
    if w.event != Crash && ClosedFor(m, tgId) {
      ClosedStays(cfg, m, w.event, tgId);
    }
  }

  lemma ReadyIsOpen(cfg: Config, m: Machine)
    requires Safe(cfg, m) && m.at.Ready?
    ensures !ClosedFor(m, m.at.todo[0])
  {
    assert m.at.todo[0] in m.at.todo;
  }

  /** Over any history of batches, retries, cancels, crashes and restarts, Telegram accepts a message to a recipient
      (the album, and the text that follows it) at most once more than the runner crashed. */
  lemma {:induction false} AcceptedBounded(cfg: Config, m: Machine, mailing: Mailing,
                                           ws: seq<Wired>, tgId: int, request: Request)
    requires Safe(cfg, m) && Possible(cfg, m, mailing, ws) && request in mailing.To(tgId)
    ensures TimesAccepted(Calls(ws), request)
            + (if ClosedFor(Run(cfg, m, Events(ws)).value, tgId) then 0 else 1) <= 1 + CountCrashes(Events(ws))
  {
    if ws != [] {
      var prefix, w := ws[..|ws| - 1], ws[|ws| - 1];
      var before := Run(cfg, m, Events(prefix)).value;
      AcceptedBounded(cfg, m, mailing, prefix, tgId, request);
      RunSafe(cfg, m, Events(prefix));
      RunSnoc(cfg, m, Events(prefix), w.event);
      StepAccepts(cfg, before, mailing, w, tgId, request);
      TimesAcceptedInTwo(Calls(prefix), w.calls, request);
      CrashesSnoc(Events(prefix), w.event);
    }
  }

  lemma CrashesSnoc(es: seq<Event>, e: Event)
    ensures CountCrashes(es + [e]) == CountCrashes(es) + if e == Crash then 1 else 0
  {
    assert (es + [e])[..|es|] == es;
  }
}
