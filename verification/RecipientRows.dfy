/** The recipient snapshot of one broadcast, and what each SQL statement on it does
    (services/broadcasts/repository.py). */
module RecipientRows {
  import opened Prelude
  import opened BroadcastModels

  datatype RowStatus = Pending | Sending | Recorded(result: DeliveryStatus)

  type Rows = map<int, RowStatus>

  function WithStatus(rows: Rows, status: RowStatus): set<int> {
    set k | k in rows && rows[k] == status
  }

  predicate AllRecorded(rows: Rows) {
    forall k | k in rows :: rows[k].Recorded?
  }

  /** `ORDER BY tg_id LIMIT limit` over the pending rows. */
  function NextBatch(rows: Rows, limit: nat): seq<int> {
    var queue := InOrder(WithStatus(rows, Pending));
    if limit < |queue| then queue[..limit] else queue
  }

  function Claimed(rows: Rows, batch: seq<int>): Rows {
    map k | k in rows :: if k in batch then Sending else rows[k]
  }

  function Settled(rows: Rows, tgId: int, status: DeliveryStatus): Rows {
    if tgId in rows then rows[tgId := Recorded(status)] else rows
  }

  /** With no ids the statement has no id filter and releases every row in `sending`. */
  function Released(rows: Rows, tgIds: seq<int>): Rows {
    map k | k in rows ::
      if rows[k] == Sending && (tgIds == [] || k in tgIds) then Pending else rows[k]
  }

  datatype Progress = Progress(total: nat, pending: nat, sent: nat, blocked: nat, failed: nat)

  function CountProgress(rows: Rows): Progress {
    Progress(
      |rows|,
      |WithStatus(rows, Pending)| + |WithStatus(rows, Sending)|,
      |WithStatus(rows, Recorded(Sent))|,
      |WithStatus(rows, Recorded(Blocked))|,
      |WithStatus(rows, Recorded(DeliveryStatus.Failed))|)
  }

  /** The counters shown to the admin always add up to the snapshot size. */
  lemma ProgressAddsUp(rows: Rows)
    ensures var p := CountProgress(rows); p.total == p.pending + p.sent + p.blocked + p.failed
  {
    var a, b := WithStatus(rows, Pending), WithStatus(rows, Sending);
    var c, d := WithStatus(rows, Recorded(Sent)), WithStatus(rows, Recorded(Blocked));
    var e := WithStatus(rows, Recorded(DeliveryStatus.Failed));
    forall k ensures k in rows.Keys <==> k in a + b + c + d + e {
      if k in rows && rows[k].Recorded? {
        match rows[k].result { case Sent => case Blocked => case Failed => }
      }
    }
    assert rows.Keys == a + b + c + d + e;
    assert |a + b| == |a| + |b| && |a + b + c| == |a + b| + |c|;
    assert |a + b + c + d| == |a + b + c| + |d| && |rows.Keys| == |a + b + c + d| + |e|;
  }

  lemma SettledWith(rows: Rows, tgId: int, result: DeliveryStatus, status: RowStatus)
    requires tgId in rows && !rows[tgId].Recorded?
    ensures |WithStatus(Settled(rows, tgId, result), status)|
         == |WithStatus(rows, status)| - (if rows[tgId] == status then 1 else 0)
            + (if status == Recorded(result) then 1 else 0)
  {
    SettledSet(rows, tgId, result, status);
    var before := WithStatus(rows, status);
    assert tgId in before <==> rows[tgId] == status;
    assert tgId !in before ==> before - {tgId} == before;
  }

  lemma SettledSet(rows: Rows, tgId: int, result: DeliveryStatus, status: RowStatus)
    requires tgId in rows && !rows[tgId].Recorded?
    ensures WithStatus(Settled(rows, tgId, result), status)
         == if status == Recorded(result) then WithStatus(rows, status) + {tgId} else WithStatus(rows, status) - {tgId}
  {
  }

  /** A recorded result moves one recipient from pending to the counter of that result, and nothing else. */
  lemma RecordCounts(rows: Rows, tgId: int, result: DeliveryStatus)
    requires tgId in rows && !rows[tgId].Recorded?
    ensures var before, after := CountProgress(rows), CountProgress(Settled(rows, tgId, result));
            && after.total == before.total && after.pending == before.pending - 1
            && after.sent == before.sent + (if result == Sent then 1 else 0)
            && after.blocked == before.blocked + (if result == Blocked then 1 else 0)
            && after.failed == before.failed + (if result == DeliveryStatus.Failed then 1 else 0)
  {
    SettledWith(rows, tgId, result, Pending);
    SettledWith(rows, tgId, result, Sending);
    SettledWith(rows, tgId, result, Recorded(Sent));
    SettledWith(rows, tgId, result, Recorded(Blocked));
    SettledWith(rows, tgId, result, Recorded(DeliveryStatus.Failed));
    assert Settled(rows, tgId, result).Keys == rows.Keys;
    assert |Settled(rows, tgId, result)| == |rows.Keys| && |rows| == |rows.Keys|;
  }

  lemma PrefixIsSmallest(queue: seq<int>, n: nat)
    requires Ascending(queue) && n <= |queue|
    ensures Ascending(queue[..n])
    ensures forall k | k in queue[..n] :: k in queue
    ensures forall k, b | k in queue && k !in queue[..n] && b in queue[..n] :: b < k
  {
    forall k, b | k in queue && k !in queue[..n] && b in queue[..n] ensures b < k {
      var j :| 0 <= j < |queue| && queue[j] == k;
      var i :| 0 <= i < n && queue[..n][i] == b;
      assert forall h | 0 <= h < n :: queue[..n][h] == queue[h] && queue[..n][h] in queue[..n];
    }
  }

  /** The claim takes the smallest pending ids, in order, and as many as the limit allows. */
  lemma ClaimTakesSmallestPending(rows: Rows, limit: nat)
    ensures var batch := NextBatch(rows, limit);
            && Ascending(batch)
            && |batch| == (if limit < |WithStatus(rows, Pending)| then limit else |WithStatus(rows, Pending)|)
            && (forall k | k in batch :: k in rows && rows[k] == Pending)
            && (forall k, b | k in rows && rows[k] == Pending && k !in batch && b in batch :: b < k)
  {
    var pending := WithStatus(rows, Pending);
    InOrderSorts(pending);
    PrefixIsSmallest(InOrder(pending), |NextBatch(rows, limit)|);
    assert forall k :: k in InOrder(pending) <==> k in rows && rows[k] == Pending;
  }
}
