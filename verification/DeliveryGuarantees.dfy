/** What every history of one broadcast guarantees, whatever the crashes, restarts and cancels. */
module DeliveryGuarantees {
  import opened Prelude
  import opened BroadcastModels
  import opened RecipientRows
  import opened DeliveryMachine

  /** A broadcast right after `create`: every recipient of the snapshot is pending. */
  ghost predicate Fresh(m: Machine) {
    && m.status == Running && m.at == Down
    && forall k | k in m.rows :: m.rows[k] == Pending
  }

  /** The counters of a broadcast add up to the size of the snapshot taken at creation. */
  lemma ProgressConserved(cfg: Config, m: Machine, es: seq<Event>)
    requires Fresh(m) && Run(cfg, m, es).Some?
    ensures var p := CountProgress(Run(cfg, m, es).value.rows);
            |m.rows| == p.total == p.pending + p.sent + p.blocked + p.failed
  {
    RunSafe(cfg, m, es);
    var rows := Run(cfg, m, es).value.rows;
    ProgressAddsUp(rows);
    assert |rows| == |rows.Keys| && |m.rows| == |m.rows.Keys|;
  }

  /** A broadcast shown as done has a recorded result for every recipient of its snapshot. */
  lemma DoneMeansEveryoneRecorded(cfg: Config, m: Machine, es: seq<Event>)
    requires Fresh(m) && Run(cfg, m, es).Some? && cfg.batchSize > 0
    requires Run(cfg, m, es).value.status == Done
    ensures AllRecorded(Run(cfg, m, es).value.rows)
  {
    RunSafe(cfg, m, es);
  }

  lemma NonePending(rows: Rows)
    requires AllRecorded(rows)
    ensures WithStatus(rows, Pending) == {}
  {
    assert forall k :: k !in WithStatus(rows, Pending);
  }

  lemma NothingToRelease(rows: Rows)
    requires forall k | k in rows :: rows[k] != Sending
    ensures Released(rows, []) == rows
  {
    forall k | k in rows ensures Released(rows, [])[k] == rows[k] {
    }
  }

  /** A claim ends the broadcast as done if and only if every result is recorded or the batch size is 0. */
  lemma ClaimEndsIff(cfg: Config, m: Machine)
    requires Safe(cfg, m) && m.at.MayClaim?
    ensures Step(cfg, m, Claim).value.at == Exiting(Done) <==> cfg.batchSize == 0 || AllRecorded(m.rows)
  {
    if cfg.batchSize > 0 && NextBatch(m.rows, cfg.batchSize) == [] {
      NothingLeft(m.rows, cfg.batchSize);
    } else if AllRecorded(m.rows) {
      NonePending(m.rows);
    }
  }

  /** So with a batch size of 0 (`LIMIT 0`) a broadcast is declared done with its whole queue untouched. */
  lemma ZeroBatchDeclaresDone(cfg: Config, m: Machine)
    requires Fresh(m) && cfg.batchSize == 0
    ensures Run(cfg, m, [Start, CheckStatus, Claim, Finish]) == Some(m.(status := Done))
  {
    NothingToRelease(m.rows);
    RunFour(cfg, m, Start, CheckStatus, Claim, Finish,
            m.(at := LoopHead(0)), m.(at := MayClaim(0)), m.(at := Exiting(Done)));
  }

  lemma RunFour(cfg: Config, m: Machine, a: Event, b: Event, c: Event, d: Event, m1: Machine, m2: Machine, m3: Machine)
    requires Step(cfg, m, a) == Some(m1) && Step(cfg, m1, b) == Some(m2) && Step(cfg, m2, c) == Some(m3)
    ensures Run(cfg, m, [a, b, c, d]) == Step(cfg, m3, d)
  {
    assert [] + [a] == [a];
    RunSnoc(cfg, m, [], a);
    assert [a] + [b] == [a, b];
    RunSnoc(cfg, m, [a], b);
    assert [a, b] + [c] == [a, b, c];
    RunSnoc(cfg, m, [a, b], c);
    assert [a, b, c] + [d] == [a, b, c, d];
    RunSnoc(cfg, m, [a, b, c], d);
  }

  // ---------------------------------------------------------------- no one is written to twice

  /** `_deliver` is being called for `tgId` by this event. */
  predicate Delivers(m: Machine, e: Event, tgId: int) {
    e.Deliver? && m.at.Ready? && m.at.todo != [] && m.at.todo[0] == tgId
  }

  /** No further delivery to `tgId` without a crash first. */
  ghost predicate ClosedFor(m: Machine, tgId: int) {
    || (tgId in m.rows && m.rows[tgId].Recorded?)
    || (m.at.Delivered? && m.at.todo != [] && m.at.todo[0] == tgId)
    || m.at.Draining? || m.at.Exiting?
    || (m.at == Down && !Active(m.status))
  }

  lemma ClosedStays(cfg: Config, m: Machine, e: Event, tgId: int)
    requires Safe(cfg, m) && Step(cfg, m, e).Some? && ClosedFor(m, tgId) && e != Crash
    ensures ClosedFor(Step(cfg, m, e).value, tgId) && !Delivers(m, e, tgId)
  {
    StepSafe(cfg, m, e);
    if e.Deliver? {
      assert m.at.todo[0] in m.at.todo;
    }
    if e == Settle {
      assert m.at.todo[0] in m.at.todo;
    }
  }

  lemma DeliveryCloses(cfg: Config, m: Machine, e: Event, tgId: int)
    requires Safe(cfg, m) && Step(cfg, m, e).Some? && Delivers(m, e, tgId)
    ensures !ClosedFor(m, tgId) && ClosedFor(Step(cfg, m, e).value, tgId)
  {
    assert m.at.todo[0] in m.at.todo;
  }

  function CountDeliveries(cfg: Config, m: Machine, es: seq<Event>, tgId: int): nat {
    if es == [] then 0 else
      var prefix := es[..|es| - 1];
      var before := Run(cfg, m, prefix);
      CountDeliveries(cfg, m, prefix, tgId)
      + (if before.Some? && Delivers(before.value, es[|es| - 1], tgId) then 1 else 0)
  }

  function CountCrashes(es: seq<Event>): nat {
    if es == [] then 0
    else CountCrashes(es[..|es| - 1]) + (if es[|es| - 1] == Crash then 1 else 0)
  }

  /** One recipient is written to at most once more than the runner crashed. */
  lemma {:induction false} DeliveriesBounded(cfg: Config, m: Machine, es: seq<Event>, tgId: int)
    requires Safe(cfg, m) && Run(cfg, m, es).Some?
    ensures var end := Run(cfg, m, es).value;
            CountDeliveries(cfg, m, es, tgId) + (if ClosedFor(end, tgId) then 0 else 1) <= 1 + CountCrashes(es)
  {
    if es != [] {
      var prefix, e := es[..|es| - 1], es[|es| - 1];
      var before := Run(cfg, m, prefix).value;
      DeliveriesBounded(cfg, m, prefix, tgId);
      RunSafe(cfg, m, prefix);
      if Delivers(before, e, tgId) {
        DeliveryCloses(cfg, before, e, tgId);
      } else if e != Crash && ClosedFor(before, tgId) {
        ClosedStays(cfg, before, e, tgId);
      }
    }
  }

  ghost predicate DeliversAt(cfg: Config, m: Machine, es: seq<Event>, i: nat, tgId: int) {
    i < |es| && Run(cfg, m, es[..i]).Some? && Delivers(Run(cfg, m, es[..i]).value, es[i], tgId)
  }

  ghost predicate RecordedAt(cfg: Config, m: Machine, es: seq<Event>, i: nat, tgId: int) {
    && i <= |es| && Run(cfg, m, es[..i]).Some?
    && tgId in Run(cfg, m, es[..i]).value.rows && Run(cfg, m, es[..i]).value.rows[tgId].Recorded?
  }

  lemma RunStepAt(cfg: Config, m: Machine, es: seq<Event>, i: nat)
    requires Run(cfg, m, es).Some? && i < |es|
    ensures Run(cfg, m, es[..i]).Some? && Run(cfg, m, es[..i + 1]).Some?
    ensures Run(cfg, m, es[..i + 1]) == Step(cfg, Run(cfg, m, es[..i]).value, es[i])
  {
    RunPrefix(cfg, m, es, i);
    RunPrefix(cfg, m, es, i + 1);
    assert es[..i + 1] == es[..i] + [es[i]];
    RunSnoc(cfg, m, es[..i], es[i]);
  }

  lemma {:induction false} StaysClosed(cfg: Config, m: Machine, es: seq<Event>, i: nat, j: nat, tgId: int)
    requires Safe(cfg, m) && Run(cfg, m, es).Some? && i <= j <= |es|
    requires Run(cfg, m, es[..i]).Some? && ClosedFor(Run(cfg, m, es[..i]).value, tgId)
    requires forall k | i <= k < j :: es[k] != Crash
    ensures Run(cfg, m, es[..j]).Some? && ClosedFor(Run(cfg, m, es[..j]).value, tgId)
    decreases j
  {
    if i < j {
      StaysClosed(cfg, m, es, i, j - 1, tgId);
      RunStepAt(cfg, m, es, j - 1);
      RunSafe(cfg, m, es[..j - 1]);
      ClosedStays(cfg, Run(cfg, m, es[..j - 1]).value, es[j - 1], tgId);
    }
  }

  lemma {:induction false} RecordedStays(cfg: Config, m: Machine, es: seq<Event>, i: nat, j: nat, tgId: int)
    requires Safe(cfg, m) && Run(cfg, m, es).Some? && i <= j <= |es| && RecordedAt(cfg, m, es, i, tgId)
    ensures RecordedAt(cfg, m, es, j, tgId)
    decreases j
  {
    if i < j {
      RecordedStays(cfg, m, es, i, j - 1, tgId);
      RunStepAt(cfg, m, es, j - 1);
      RunSafe(cfg, m, es[..j - 1]);
      StepSafe(cfg, Run(cfg, m, es[..j - 1]).value, es[j - 1]);
    }
  }

  /** If a recipient is written to twice, the runner crashed after the first send, and the first
      result had not been recorded by the time of the second send. */
  lemma SecondSendNeedsCrash(cfg: Config, m: Machine, es: seq<Event>, i: nat, j: nat, tgId: int)
    requires Safe(cfg, m) && Run(cfg, m, es).Some? && i < j
    requires DeliversAt(cfg, m, es, i, tgId) && DeliversAt(cfg, m, es, j, tgId)
    ensures exists k | i < k < j :: es[k] == Crash
    ensures forall k | i <= k <= j :: !RecordedAt(cfg, m, es, k, tgId)
  {
    RunSafe(cfg, m, es[..i]);
    RunStepAt(cfg, m, es, i);
    DeliveryCloses(cfg, Run(cfg, m, es[..i]).value, es[i], tgId);
    RunSafe(cfg, m, es[..j]);
    RunStepAt(cfg, m, es, j);
    DeliveryCloses(cfg, Run(cfg, m, es[..j]).value, es[j], tgId);
    if forall k | i < k < j :: es[k] != Crash {
      StaysClosed(cfg, m, es, i + 1, j, tgId);
    }
    forall k | i <= k <= j ensures !RecordedAt(cfg, m, es, k, tgId) {
      if RecordedAt(cfg, m, es, k, tgId) {
        RecordedStays(cfg, m, es, k, j, tgId);
      }
    }
  }

  // ---------------------------------------------------------------- cancelling and ending

  /** Deliveries the runner may still make once it will see a cancel at its next batch check. */
  function Budget(cfg: Config, m: Machine): nat {
    match m.at
    case Ready(todo, _) => |todo|
    case Delivered(todo, _, _) => if todo == [] then 0 else |todo| - 1
    case MayClaim(_) => cfg.batchSize
    case _ => 0
  }

  function CountAllDeliveries(es: seq<Event>): nat {
    if es == [] then 0
    else CountAllDeliveries(es[..|es| - 1]) + (if es[|es| - 1].Deliver? then 1 else 0)
  }

  lemma BudgetShrinks(cfg: Config, m: Machine, e: Event)
    requires Safe(cfg, m) && Step(cfg, m, e).Some? && m.status != Running
    ensures var after := Step(cfg, m, e).value;
            after.status != Running && (if e.Deliver? then 1 else 0) + Budget(cfg, after) <= Budget(cfg, m)
  {
    ClaimTakesSmallestPending(m.rows, cfg.batchSize);
  }

  /** After a cancel request only the batch in hand is still sent, across crashes and restarts too. */
  lemma {:induction false} CancelStopsWithinOneBatch(cfg: Config, m: Machine, es: seq<Event>)
    requires Safe(cfg, m) && Run(cfg, m, es).Some? && m.status != Running
    ensures Run(cfg, m, es).value.status != Running
    ensures CountAllDeliveries(es) + Budget(cfg, Run(cfg, m, es).value) <= Budget(cfg, m)
  {
    if es != [] {
      var prefix := es[..|es| - 1];
      CancelStopsWithinOneBatch(cfg, m, prefix);
      RunSafe(cfg, m, prefix);
      BudgetShrinks(cfg, Run(cfg, m, prefix).value, es[|es| - 1]);
    }
  }

  /** Canceled, done and failed are final: nothing is sent and no row changes any more. */
  lemma {:induction false} FinishedIsFinal(cfg: Config, m: Machine, es: seq<Event>)
    requires m.at == Down && !Active(m.status) && Run(cfg, m, es).Some?
    ensures Run(cfg, m, es).value == m
  {
    if es != [] {
      FinishedIsFinal(cfg, m, es[..|es| - 1]);
    }
  }
}
