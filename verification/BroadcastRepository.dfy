/** The broadcasts table and its recipient snapshots (services/broadcasts/repository.py).
    Each statement is one atomic step on the whole store. */
module BroadcastRepository {
  import opened Prelude
  import opened BroadcastModels
  import opened RecipientRows
  import Machine = DeliveryMachine
  import DeliveryGuarantees

  datatype BroadcastRow = BroadcastRow(status: BroadcastStatus, recipients: Rows)

  datatype Store = Store(broadcasts: map<int, BroadcastRow>, nextId: int)

  datatype Statement =
    | Create(snapshot: set<int>)
    | Claim(id: int, limit: nat)
    | Record(id: int, tgId: int, result: DeliveryStatus)
    | ReleaseClaimed(id: int, tgIds: seq<int>)
    | RequestCancel(id: int)
    | Finish(id: int, outcome: BroadcastStatus)

  function ActiveIds(s: Store): set<int> {
    set id | id in s.broadcasts && Active(s.broadcasts[id].status)
  }

  function WithRecipients(s: Store, id: int, rows: Rows): Store
    requires id in s.broadcasts
  {
    s.(broadcasts := s.broadcasts[id := s.broadcasts[id].(recipients := rows)])
  }

  function Exec(s: Store, q: Statement): Store {
    match q
    case Create(snapshot) =>
      if ActiveIds(s) != {} then s
      else Store(s.broadcasts[s.nextId := BroadcastRow(Running, map k | k in snapshot :: Pending)], s.nextId + 1)
    case Claim(id, limit) =>
      if id !in s.broadcasts then s
      else WithRecipients(s, id, Claimed(s.broadcasts[id].recipients, NextBatch(s.broadcasts[id].recipients, limit)))
    case Record(id, tgId, result) =>
      if id !in s.broadcasts then s
      else WithRecipients(s, id, Settled(s.broadcasts[id].recipients, tgId, result))
    case ReleaseClaimed(id, tgIds) =>
      if id !in s.broadcasts then s
      else WithRecipients(s, id, Released(s.broadcasts[id].recipients, tgIds))
    case RequestCancel(id) =>
      if id in s.broadcasts && s.broadcasts[id].status == Running
      then s.(broadcasts := s.broadcasts[id := s.broadcasts[id].(status := CancelRequested)]) else s
    case Finish(id, outcome) =>
      if id in s.broadcasts && Active(s.broadcasts[id].status)
      then s.(broadcasts := s.broadcasts[id := s.broadcasts[id].(status := outcome)]) else s
  }

  function ExecAll(s: Store, qs: seq<Statement>): Store {
    if qs == [] then s else Exec(ExecAll(s, qs[..|qs| - 1]), qs[|qs| - 1])
  }

  ghost predicate AtMostOneActive(s: Store) {
    && (forall id | id in s.broadcasts :: id < s.nextId)
    && forall a, b | a in s.broadcasts && b in s.broadcasts
         && Active(s.broadcasts[a].status) && Active(s.broadcasts[b].status) :: a == b
  }

  /** Under any interleaving of statements no two broadcasts are active at once, and a canceled,
      done or failed broadcast never changes its status again. */
  lemma {:induction false} OneActiveBroadcast(s: Store, qs: seq<Statement>)
    requires AtMostOneActive(s)
    ensures AtMostOneActive(ExecAll(s, qs))
    ensures forall id | id in s.broadcasts :: id in ExecAll(s, qs).broadcasts
    ensures forall id | id in s.broadcasts && !Active(s.broadcasts[id].status) ::
              ExecAll(s, qs).broadcasts[id].status == s.broadcasts[id].status
  {
    if qs != [] {
      OneActiveBroadcast(s, qs[..|qs| - 1]);
      var before := ExecAll(s, qs[..|qs| - 1]);
      if qs[|qs| - 1].Create? && ActiveIds(before) == {} {
        assert forall id | id in before.broadcasts :: id !in ActiveIds(before);
      }
    }
  }

  /** A broadcast is created if and only if none is active. It has a new id, runs, and holds exactly the snapshot,
      all of it waiting and nothing recorded: a machine as every history of `DeliveryGuarantees` begins. No other
      broadcast changes. */
  lemma CreatedIsFresh(s: Store, snapshot: set<int>)
    requires AtMostOneActive(s)
    ensures var after := Exec(s, Create(snapshot));
            if exists id :: id in s.broadcasts && Active(s.broadcasts[id].status) then after == s
            else
              && s.nextId !in s.broadcasts && after.broadcasts.Keys == s.broadcasts.Keys + {s.nextId}
              && (forall id | id in s.broadcasts :: after.broadcasts[id] == s.broadcasts[id])
              && var row := after.broadcasts[s.nextId];
                 && row.recipients.Keys == snapshot
                 && DeliveryGuarantees.Fresh(Machine.Machine(row.recipients, row.status, Machine.Down))
                 && CountProgress(row.recipients) == Progress(|snapshot|, |snapshot|, 0, 0, 0)
  {
    if exists id :: id in s.broadcasts && Active(s.broadcasts[id].status) {
      var id :| id in s.broadcasts && Active(s.broadcasts[id].status);
      assert id in ActiveIds(s);
    } else {
      assert ActiveIds(s) == {};
      AllWaiting(snapshot);
    }
  }

  lemma AllWaiting(snapshot: set<int>)
    ensures var rows: Rows := map k | k in snapshot :: Pending;
            rows.Keys == snapshot && CountProgress(rows) == Progress(|snapshot|, |snapshot|, 0, 0, 0)
  {
    var rows: Rows := map k | k in snapshot :: Pending;
    assert WithStatus(rows, Pending) == snapshot && WithStatus(rows, Sending) == {};
    forall result ensures WithStatus(rows, Recorded(result)) == {} {
    }
    assert rows.Keys == snapshot && |rows| == |rows.Keys|;
  }

  // ---------------------------------------------------------------- claims across processes

  /** A statement that returns `tgId` to the queue if it is in `sending`. */
  predicate Releases(q: Statement, id: int, tgId: int) {
    q.ReleaseClaimed? && q.id == id && (q.tgIds == [] || tgId in q.tgIds)
  }

  predicate HasStatus(s: Store, id: int, tgId: int, status: RowStatus) {
    id in s.broadcasts && tgId in s.broadcasts[id].recipients && s.broadcasts[id].recipients[tgId] == status
  }

  /** Some statement of `qs` released `tgId` while it was in `sending`. */
  ghost predicate ReleasedWhileSending(s: Store, qs: seq<Statement>, id: int, tgId: int) {
    qs != [] &&
    var prefix := qs[..|qs| - 1];
    || ReleasedWhileSending(s, prefix, id, tgId)
    || (HasStatus(ExecAll(s, prefix), id, tgId, Sending) && Releases(qs[|qs| - 1], id, tgId))
  }

  /** `tgId` was claimable at some moment of `qs`. */
  ghost predicate InQueueSometime(s: Store, qs: seq<Statement>, id: int, tgId: int) {
    || HasStatus(ExecAll(s, qs), id, tgId, Pending)
    || (qs != [] && InQueueSometime(s, qs[..|qs| - 1], id, tgId))
  }

  lemma ExecOnRow(s: Store, q: Statement, id: int, tgId: int)
    requires AtMostOneActive(s) && id in s.broadcasts && tgId in s.broadcasts[id].recipients
    ensures id in Exec(s, q).broadcasts && tgId in Exec(s, q).broadcasts[id].recipients
    ensures !HasStatus(s, id, tgId, Pending) ==>
              (HasStatus(Exec(s, q), id, tgId, Pending) <==> HasStatus(s, id, tgId, Sending) && Releases(q, id, tgId))
  {
    if q.Claim? && q.id == id && !HasStatus(s, id, tgId, Pending) {
      ClaimTakesSmallestPending(s.broadcasts[id].recipients, q.limit);
    }
  }

  /** However many processes run statements on it, a claimed recipient can be claimed a second time
      if and only if some release covered it while it was still in `sending`. */
  lemma {:induction false} ClaimedAgainIffReleased(s: Store, qs: seq<Statement>, id: int, tgId: int)
    requires AtMostOneActive(s) && HasStatus(s, id, tgId, Sending)
    ensures id in ExecAll(s, qs).broadcasts && tgId in ExecAll(s, qs).broadcasts[id].recipients
    ensures InQueueSometime(s, qs, id, tgId) <==> ReleasedWhileSending(s, qs, id, tgId)
  {
    if qs != [] {
      var prefix := qs[..|qs| - 1];
      ClaimedAgainIffReleased(s, prefix, id, tgId);
      OneActiveBroadcast(s, prefix);
      ExecOnRow(ExecAll(s, prefix), qs[|qs| - 1], id, tgId);
      assert HasStatus(ExecAll(s, prefix), id, tgId, Pending) ==> InQueueSometime(s, prefix, id, tgId);
    }
  }

  /** Two runners on one broadcast: the second one releases the first one's claim when it starts and
      then claims the same recipient, although the first is still sending to it. */
  lemma SecondRunnerTakesSameRecipient()
    ensures var s := Store(map[1 := BroadcastRow(Running, map[7 := Pending])], 2);
            var first := Exec(s, Claim(1, 25));
            var second := Exec(first, ReleaseClaimed(1, []));
            && NextBatch(s.broadcasts[1].recipients, 25) == [7]
            && NextBatch(second.broadcasts[1].recipients, 25) == [7]
  {
    var rows: Rows := map[7 := Pending];
    assert WithStatus(rows, Pending) == {7};
    InOrderSorts({7});
    assert |InOrder({7})| == 1 && InOrder({7})[0] in InOrder({7});
    assert Released(Claimed(rows, [7]), []) == rows;
  }

  class Repository {
    var broadcasts: map<int, BroadcastRow>
    var nextId: int

    ghost function View(): Store
      reads this
    {
      Store(broadcasts, nextId)
    }

    constructor ()
      ensures View() == Store(map[], 1)
    {
      broadcasts, nextId := map[], 1;
    }

    method Status(id: int) returns (status: Option<BroadcastStatus>)
      ensures status == if id in broadcasts then Some(broadcasts[id].status) else None
    {
      status := if id in broadcasts then Some(broadcasts[id].status) else None;
    }

    /** Ids of active broadcasts, in order. */
    method ListActive() returns (ids: seq<int>)
      ensures ids == InOrder(ActiveIds(View()))
    {
      ids := InOrder(set id | id in broadcasts && Active(broadcasts[id].status));
    }

    /** The new id, or the lowest active broadcast that stands in the way. */
    method Create(snapshot: set<int>) returns (created: Option<int>, running: Option<int>)
      modifies this
      ensures View() == Exec(old(View()), Statement.Create(snapshot))
      ensures created == if ActiveIds(old(View())) == {} then Some(old(nextId)) else None
      ensures running == if ActiveIds(old(View())) == {} then None else Some(Least(ActiveIds(old(View()))))
    {
      var active := set id | id in broadcasts && Active(broadcasts[id].status);
      if active != {} {
        return None, Some(Least(active));
      }
      created, running := Some(nextId), None;
      broadcasts := broadcasts[nextId := BroadcastRow(Running, map k | k in snapshot :: Pending)];
      nextId := nextId + 1;
    }

    method Claim(id: int, limit: nat) returns (batch: seq<int>)
      modifies this`broadcasts
      ensures View() == Exec(old(View()), Statement.Claim(id, limit))
      ensures batch == if id in old(broadcasts) then NextBatch(old(broadcasts)[id].recipients, limit) else []
    {
      if id !in broadcasts {
        return [];
      }
      var row := broadcasts[id];
      batch := NextBatch(row.recipients, limit);
      broadcasts := broadcasts[id := row.(recipients := Claimed(row.recipients, batch))];
    }

    method Record(id: int, tgId: int, result: DeliveryStatus)
      modifies this`broadcasts
      ensures View() == Exec(old(View()), Statement.Record(id, tgId, result))
    {
      if id in broadcasts {
        var row := broadcasts[id];
        broadcasts := broadcasts[id := row.(recipients := Settled(row.recipients, tgId, result))];
      }
    }

    method ReleaseClaimed(id: int, tgIds: seq<int>)
      modifies this`broadcasts
      ensures View() == Exec(old(View()), Statement.ReleaseClaimed(id, tgIds))
    {
      if id in broadcasts {
        var row := broadcasts[id];
        broadcasts := broadcasts[id := row.(recipients := Released(row.recipients, tgIds))];
      }
    }

    method RequestCancel(id: int) returns (changed: bool)
      modifies this`broadcasts
      ensures View() == Exec(old(View()), Statement.RequestCancel(id))
      ensures changed <==> id in old(broadcasts) && old(broadcasts)[id].status == Running
    {
      changed := id in broadcasts && broadcasts[id].status == Running;
      if changed {
        broadcasts := broadcasts[id := broadcasts[id].(status := CancelRequested)];
      }
    }

    method Finish(id: int, outcome: BroadcastStatus)
      modifies this`broadcasts
      ensures View() == Exec(old(View()), Statement.Finish(id, outcome))
    {
      if id in broadcasts && Active(broadcasts[id].status) {
        broadcasts := broadcasts[id := broadcasts[id].(status := outcome)];
      }
    }
  }
}
