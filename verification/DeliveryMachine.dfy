/** Broadcast delivery as a step machine: one runner process that may crash at any await and be
    restarted, an admin who may ask to cancel at any moment, and a recipient table changed one SQL
    statement at a time (services/broadcasts/runner.py, services/broadcasts/repository.py). */
module DeliveryMachine {
  import opened Prelude
  import opened BroadcastModels
  import opened RecipientRows

  datatype Config = Config(batchSize: nat, maxFailures: int)

  /** Where the runner process stands. `todo` is the part of the claimed batch not yet settled. */
  datatype Point =
    | Down
    | LoopHead(streak: nat)
    | MayClaim(streak: nat)
    | Ready(todo: seq<int>, streak: nat)
    | Delivered(todo: seq<int>, result: SendResult, streak: nat)
    | Draining(todo: seq<int>)
    | Exiting(outcome: BroadcastStatus)

  datatype Machine = Machine(rows: Rows, status: BroadcastStatus, at: Point)

  datatype Event =
    | Start | CheckStatus | Claim | Deliver(result: SendResult) | Settle | Release | Finish
    | RequestCancel | Crash

  function Step(cfg: Config, m: Machine, e: Event): Option<Machine> {
    match e
    case Start =>
      if m.at == Down && Active(m.status)
      then Some(m.(rows := Released(m.rows, []), at := LoopHead(0))) else None
    case CheckStatus =>
      if m.at.LoopHead?
      then Some(m.(at := if m.status == Running then MayClaim(m.at.streak) else Exiting(Canceled))) else None
    case Claim =>
      if m.at.MayClaim? then
        var batch := NextBatch(m.rows, cfg.batchSize);
        if batch == [] then Some(m.(at := Exiting(Done)))
        else Some(m.(rows := Claimed(m.rows, batch), at := Ready(batch, m.at.streak)))
      else None
    case Deliver(result) =>
      if m.at.Ready? then Some(m.(at := Delivered(m.at.todo, result, m.at.streak))) else None
    case Settle =>
      if m.at.Delivered? && m.at.todo != [] && !m.at.result.unauthorized then
        var streak := if m.at.result.status == DeliveryStatus.Failed then m.at.streak + 1 else 0;
        Some(m.(rows := Settled(m.rows, m.at.todo[0], m.at.result.status),
                at := AfterRecord(cfg, m.at.todo[1..], streak)))
      else None
    case Release =>
      if m.at.Draining? || (m.at.Delivered? && m.at.result.unauthorized)
      then Some(m.(rows := Released(m.rows, m.at.todo), at := Exiting(BroadcastStatus.Failed))) else None
    case Finish =>
      if m.at.Exiting?
      then Some(m.(status := if Active(m.status) then m.at.outcome else m.status, at := Down)) else None
    case RequestCancel =>
      Some(m.(status := if m.status == Running then CancelRequested else m.status))
    case Crash =>
      if m.at != Down then Some(m.(at := Down)) else None
  }

  function AfterRecord(cfg: Config, rest: seq<int>, streak: nat): Point {
    if streak >= cfg.maxFailures then Draining(rest)
    else if rest == [] then LoopHead(streak)
    else Ready(rest, streak)
  }

  /** The state after a history of events; None when some event was not possible. */
  function Run(cfg: Config, m: Machine, es: seq<Event>): Option<Machine> {
    if es == [] then Some(m) else
      var before := Run(cfg, m, es[..|es| - 1]);
      if before.None? then None else Step(cfg, before.value, es[|es| - 1])
  }

  lemma RunSnoc(cfg: Config, m: Machine, es: seq<Event>, e: Event)
    requires Run(cfg, m, es).Some?
    ensures Run(cfg, m, es + [e]) == Step(cfg, Run(cfg, m, es).value, e)
  {
    assert (es + [e])[..|es|] == es;
  }

  lemma {:induction false} RunPrefix(cfg: Config, m: Machine, es: seq<Event>, i: nat)
    requires Run(cfg, m, es).Some? && i <= |es|
    ensures Run(cfg, m, es[..i]).Some?
  {
    if i < |es| {
      RunPrefix(cfg, m, es[..|es| - 1], i);
      assert es[..|es| - 1][..i] == es[..i];
    } else {
      assert es[..i] == es;
    }
  }

  // ---------------------------------------------------------------- invariants

  /** Exactly the rows of `todo` are in `sending`. */
  ghost predicate Holds(rows: Rows, todo: seq<int>) {
    && Ascending(todo)
    && forall k :: (k in rows && rows[k] == Sending) <==> k in todo
  }

  ghost predicate Safe(cfg: Config, m: Machine) {
    && (match m.at
        case Down => true
        case LoopHead(_) => Holds(m.rows, [])
        case MayClaim(_) => Holds(m.rows, [])
        case Ready(todo, _) => todo != [] && Holds(m.rows, todo)
        case Delivered(todo, _, _) => todo != [] && Holds(m.rows, todo)
        case Draining(todo) => Holds(m.rows, todo)
        case Exiting(outcome) => Holds(m.rows, []) && !Active(outcome))
    && (cfg.batchSize > 0 && (m.status == Done || m.at == Exiting(Done)) ==> AllRecorded(m.rows))
  }

  /** Recorded rows keep their result, and the snapshot keeps its members. */
  ghost predicate Keeps(before: Rows, after: Rows) {
    && before.Keys == after.Keys
    && forall k | k in before && before[k].Recorded? :: after[k] == before[k]
  }

  lemma HoldsAfterClaim(rows: Rows, limit: nat)
    requires Holds(rows, [])
    ensures Holds(Claimed(rows, NextBatch(rows, limit)), NextBatch(rows, limit))
    ensures Keeps(rows, Claimed(rows, NextBatch(rows, limit)))
  {
    ClaimTakesSmallestPending(rows, limit);
    var batch := NextBatch(rows, limit);
    var after := Claimed(rows, batch);
    forall k ensures (k in after && after[k] == Sending) <==> k in batch {
      assert k in rows && rows[k] == Sending <==> k in [];
    }
  }

  lemma HoldsAfterRelease(rows: Rows, todo: seq<int>)
    requires Holds(rows, todo)
    ensures Holds(Released(rows, todo), []) && Keeps(rows, Released(rows, todo))
  {
  }

  lemma HoldsAfterSettle(rows: Rows, todo: seq<int>, status: DeliveryStatus)
    requires todo != [] && Holds(rows, todo)
    ensures Holds(Settled(rows, todo[0], status), todo[1..])
    ensures Keeps(rows, Settled(rows, todo[0], status))
  {
    assert todo[0] in todo;
    forall k ensures k in todo[1..] <==> k in todo && k != todo[0] {
      assert todo == [todo[0]] + todo[1..];
    }
  }

  lemma NothingLeft(rows: Rows, limit: nat)
    requires Holds(rows, []) && limit > 0 && NextBatch(rows, limit) == []
    ensures AllRecorded(rows)
  {
    forall k | k in rows ensures rows[k].Recorded? {
      assert k in rows && rows[k] == Sending <==> k in [];
      assert WithStatus(rows, Pending) == {};
      assert k !in WithStatus(rows, Pending);
    }
  }

  lemma StepSafe(cfg: Config, m: Machine, e: Event)
    requires Safe(cfg, m) && Step(cfg, m, e).Some?
    ensures Safe(cfg, Step(cfg, m, e).value)
    ensures Keeps(m.rows, Step(cfg, m, e).value.rows)
  {
    match e
    case Start =>
    case Claim =>
      HoldsAfterClaim(m.rows, cfg.batchSize);
      if NextBatch(m.rows, cfg.batchSize) == [] && cfg.batchSize > 0 {
        NothingLeft(m.rows, cfg.batchSize);
      }
    case Settle =>
      HoldsAfterSettle(m.rows, m.at.todo, m.at.result.status);
    case Release =>
      HoldsAfterRelease(m.rows, m.at.todo);
    case CheckStatus =>
    case Deliver(_) =>
    case Finish =>
    case RequestCancel =>
    case Crash =>
  }

  /** Over any history of batches, results, cancels, crashes and restarts: the invariant holds, the
      snapshot keeps its members and a recorded recipient keeps its recorded result. */
  lemma {:induction false} RunSafe(cfg: Config, m: Machine, es: seq<Event>)
    requires Safe(cfg, m) && Run(cfg, m, es).Some?
    ensures Safe(cfg, Run(cfg, m, es).value)
    ensures Keeps(m.rows, Run(cfg, m, es).value.rows)
  {
    if es != [] {
      RunSafe(cfg, m, es[..|es| - 1]);
      StepSafe(cfg, Run(cfg, m, es[..|es| - 1]).value, es[|es| - 1]);
    }
  }
}
